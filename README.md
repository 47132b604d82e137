# khezy-kit core, modelled in Dafny

This project models the core of the khezy-kit Java utilities and proves properties of
that model:

- **clone-util**, the deep-clone engine. `DefaultCloner` keeps an ordered chain of
  `CloneStrategy`s and picks the first one that supports a class. `CloneContext`
  keeps the identity map from origin objects to their copies and drives the
  recursion through `proceed`. Five built-in strategies do the copying:
  `ImmutableStrategy`, `MapStrategy`, `CollectionStrategy`, `ArrayStrategy` and
  `ReflectionStrategy`. `Clones` is the static facade.
  - The Java heap is a sequence of nodes addressed by references. Reflection
    metadata is a table of class descriptors.
  - The copy methods are imperative: they allocate and write heap nodes and
    register copies in the context.
  - `clone_spec.dfy` says what each copy must hold.
  - `clone_theorems.dfy` proves what a finished clone guarantees:
    - fresh, distinct copies;
    - cycles and shared references reproduced;
    - the shape of map, collection, array and field copies;
    - no reference from a copy back to a mutable origin object;
    - every failure is a missing strategy or a wrapped reflective failure, and a
      clone succeeds whenever every object it reaches is clonable.
- **dynamic-object**, the path-based accessor:
  - `DefaultPathParser` turns paths such as `users[0].profile?.name` into property
    and index tokens, with a `MapCache` of parsed paths.
  - The type adapters for maps, lists, records and beans, and
    `CompositeTypeAdapter`, which delegates to the first adapter that supports a
    target and caches that choice per class.
  - `DefaultObjectAccessor.get` and `set`. `set` creates missing maps and lists
    and pads lists with nulls.
  - `AccessorFactoryImpl` and the `DynamicObjects` wiring.
- **StringUtil**: null-safe blank and empty tests, equality, reversal, strip,
  stripLeft and stripRight, and split and rsplit with limits.
- **FileSystemStorageService**, its URL part only: normalising the base URL, and
  `getUrl` and `getSignedUrl`.

A Java `null` is `None` of an `Option`. A thrown exception is `Failure` of a `Result`.

Where the documentation or the tests and the code disagree, the model follows the code:

- **`StringUtil.isBlank(null)`.**
  - The code returns `false`.
  - The test at `utils/string-util/src/test/java/io/github/khezyapp/utils/StringUtilTest.java`,
    lines 29-30, expects `true`.
  - `StringUtils.NullAndEmpty` proves the code's answer.
- **`StringUtil.split(text, pattern, limit, false)`.**
  - The limit is documented as "the maximum number of elements".
  - The code uses only its sign: a positive limit is replaced by 0, and a
    negative one keeps the trailing empty pieces.
  - `StringUtils.SplitIgnoresLimit` states the behaviour as written.
  - `rsplit` does apply the limit in the same case (`StringUtils.RSplitAppliesLimit`).
- **`FileSystemStorageService`'s constructor.**
  - It removes trailing slashes before it strips whitespace.
  - So a base URL such as `"files/ "` keeps its trailing slash
    (`FileStorage.WhitespaceKeepsSlash`).

## Model

| member | source | states |
|---|---|---|
| DefaultCloners.GetCloneStrategy | utils/clone-util/src/main/java/io/github/khezyapp/clone/DefaultCloner.java:62-69 | A strategy found supports the class and belongs to the chain |
| DefaultCloners.GetCloneStrategyFirst | utils/clone-util/src/main/java/io/github/khezyapp/clone/DefaultCloner.java:62-69 | The strategy found is the first supporting one; none is found (the IllegalArgumentException) exactly when no strategy supports the class |
| DefaultCloners.GetCloneStrategyAppend | utils/clone-util/src/main/java/io/github/khezyapp/clone/DefaultCloner.java:62-69 | In a chain of two parts, the front part decides whenever one of its strategies supports the class |
| DefaultCloners.BuiltInSelection | utils/clone-util/src/main/java/io/github/khezyapp/clone/DefaultCloner.java:99-106 | The built-in chain picks immutables first, then maps, collections, arrays, and reflection for every other class |
| DefaultCloners.Builder.constructor | utils/clone-util/src/main/java/io/github/khezyapp/clone/DefaultCloner.java:78-87 | A new builder has no registered strategies |
| DefaultCloners.Builder.RegisterStrategy | utils/clone-util/src/main/java/io/github/khezyapp/clone/DefaultCloner.java:89-92 | A registered strategy goes in front of those registered before it |
| DefaultCloners.Builder.Build | utils/clone-util/src/main/java/io/github/khezyapp/clone/DefaultCloner.java:99-106 | The cloner's chain is the registered strategies followed by the five built-ins |
| DefaultCloners.BuiltChainTotal | utils/clone-util/src/main/java/io/github/khezyapp/clone/DefaultCloner.java:99-106 | A chain made by the builder finds a strategy for every class, so getCloneStrategy never throws for it |
| DefaultCloners.RegisteredTakePrecedence | utils/clone-util/src/main/java/io/github/khezyapp/clone/DefaultCloner.java:89-106 | A registered strategy that supports the class wins over every built-in; otherwise the built-in selection applies |
| CloneStrategies.MapDestClass | utils/clone-util/src/main/java/io/github/khezyapp/clone/strategy/MapStrategy.java:30-34 | A map copy has the origin's class, LinkedHashMap or HashMap; LinkedHashMap whenever the origin is one without a public no-arg constructor |
| CloneStrategies.CollectionDestClass | utils/clone-util/src/main/java/io/github/khezyapp/clone/strategy/CollectionStrategy.java:31-35 | A collection copy has the origin's class, HashSet or ArrayList; without a public no-arg constructor it is HashSet exactly for sets |
| CloneStrategies.WalkLength | utils/clone-util/src/main/java/io/github/khezyapp/clone/strategy/ReflectionStrategy.java:38-49 | The superclass walk covers exactly the levels before java.lang.Object or the end of the chain |
| CloneStrategies.WalkContinues | utils/clone-util/src/main/java/io/github/khezyapp/clone/strategy/ReflectionStrategy.java:39 | The walk goes past every level that is not java.lang.Object |
| CloneStrategies.WalkStops | utils/clone-util/src/main/java/io/github/khezyapp/clone/strategy/ReflectionStrategy.java:39 | The walk stops at java.lang.Object or at the end of the superclass chain |
| CloneStrategies.LevelFields | utils/clone-util/src/main/java/io/github/khezyapp/clone/strategy/ReflectionStrategy.java:40-47 | Every field a class declares is visited once, in declaration order, keyed by that class |
| CloneStrategies.FlatFieldsStep | utils/clone-util/src/main/java/io/github/khezyapp/clone/strategy/ReflectionStrategy.java:38-49 | Walking one more level appends exactly that level's declared fields |
| CloneHeap.LookupFound | utils/clone-util/src/main/java/io/github/khezyapp/clone/strategy/MapStrategy.java:38-42 | Map.get finds a key exactly when some entry holds it |
| CloneHeap.MapPutKeys | utils/clone-util/src/main/java/io/github/khezyapp/clone/strategy/MapStrategy.java:38-42 | After a put, the keys are the old keys plus the new one, and the size grows only for a new key |
| CloneHeap.MapPutLookup | utils/clone-util/src/main/java/io/github/khezyapp/clone/strategy/MapStrategy.java:38-42 | After a put, the key maps to the new value and every other key to its old value |
| CloneHeap.MapPutDistinct | utils/clone-util/src/main/java/io/github/khezyapp/clone/strategy/MapStrategy.java:38-42 | A put keeps the keys of a map distinct |
| CloneHeap.CollectionAdd | utils/clone-util/src/main/java/io/github/khezyapp/clone/strategy/CollectionStrategy.java:39-42 | After add the element is present and nothing else is new; a set stays duplicate-free; a list appends at the end |
| CloneHeapState.Heap.Alloc | utils/clone-util/src/main/java/io/github/khezyapp/clone/strategy/ReflectionStrategy.java:31-34 | A new object is a node at the next free address; the existing nodes are untouched |
| CloneHeapState.Heap.SetBody | utils/clone-util/src/main/java/io/github/khezyapp/clone/strategy/ReflectionStrategy.java:44-46 | A write changes the contents of one node only and keeps its class |
| CloneSpec.ImgStable | utils/clone-util/src/main/java/io/github/khezyapp/clone/api/CloneContext.java:56-66 | Once a value's copy is determined, registering more copies does not change it |
| CloneSpec.ImgSeq | utils/clone-util/src/main/java/io/github/khezyapp/clone/strategy/ArrayStrategy.java:31-34 | The copied elements are, position by position, the copies of the origin elements |
| CloneSpec.ImgPairs | utils/clone-util/src/main/java/io/github/khezyapp/clone/strategy/MapStrategy.java:38-42 | Each copied entry is the pair of the copies of the origin key and value |
| CloneSpec.CopyFieldsStable | utils/clone-util/src/main/java/io/github/khezyapp/clone/strategy/ReflectionStrategy.java:40-47 | Field values already copied stay the same copies while the visited map grows |
| CloneSpec.ExpectedStable | utils/clone-util/src/main/java/io/github/khezyapp/clone/api/CloneContext.java:39-42 | Once the children of an object are settled, later registrations change neither them nor the copy the object is expected to have |
| CloneSpec.DoneStable | utils/clone-util/src/main/java/io/github/khezyapp/clone/api/CloneContext.java:39-42 | A finished copy stays finished while the visited map grows and its node is not written |
| CloneSpec.AllDoneGrow | utils/clone-util/src/main/java/io/github/khezyapp/clone/api/CloneContext.java:56-66 | Finished copies survive a nested proceed that only extends the visited map and only appends nodes |
| CloneSpec.AllDoneWrite | utils/clone-util/src/main/java/io/github/khezyapp/clone/strategy/ReflectionStrategy.java:44-46 | Writing the copy being built leaves every other finished copy finished |
| CloneSpec.AllDoneAdd | utils/clone-util/src/main/java/io/github/khezyapp/clone/strategy/ReflectionStrategy.java:50 | A copy whose node holds its expected contents joins the finished copies |
| CloneSpec.GrowChain | utils/clone-util/src/main/java/io/github/khezyapp/clone/api/CloneContext.java:39-42 | Growth of the visited map and the heap is transitive |
| CloneSpec.RegisterOk | utils/clone-util/src/main/java/io/github/khezyapp/clone/api/CloneContext.java:39-42 | Registering a fresh node as the copy of an unvisited object keeps the visited map consistent, and no other copy is left unfinished |
| CloneContexts.CloneContext.constructor | utils/clone-util/src/main/java/io/github/khezyapp/clone/api/CloneContext.java:25-28 | A new context has the cloner and an empty identity map |
| CloneContexts.CloneContext.RegisterVisited | utils/clone-util/src/main/java/io/github/khezyapp/clone/api/CloneContext.java:39-42 | The identity map records the copy for the original, replacing any earlier entry |
| CloneContexts.CloneContext.Proceed | utils/clone-util/src/main/java/io/github/khezyapp/clone/api/CloneContext.java:56-66 | Null and ignored classes give null; a visited object gives its copy and changes nothing; an unsupported class fails with NoStrategyFound; any failure is NoStrategyFound or a wrapped reflective failure; it succeeds whenever every object it reaches is clonable (ClonableClosed); on success the result is the value's copy and every copy made meanwhile is finished |
| CloneContexts.CloneContext.StartCopy | utils/clone-util/src/main/java/io/github/khezyapp/clone/strategy/MapStrategy.java:30-36 | The copy is a new node appended to the heap and registered for its origin before any child is cloned |
| CloneContexts.CloneContext.WriteCopy | utils/clone-util/src/main/java/io/github/khezyapp/clone/strategy/MapStrategy.java:38-42 | Writing into the copy under construction changes that node only |
| CloneContexts.CloneContext.FinishCopy | utils/clone-util/src/main/java/io/github/khezyapp/clone/strategy/MapStrategy.java:44 | A copy holding its expected contents is returned as the origin's image, and every copy registered since is finished |
| CloneContexts.CloneContext.MapCopy | utils/clone-util/src/main/java/io/github/khezyapp/clone/strategy/MapStrategy.java:26-45 | MapStrategy.copy: a nested failure is passed on as it is; it succeeds whenever every object it reaches is clonable; on success the result is the origin's copy and every copy made meanwhile is finished |
| CloneContexts.CloneContext.CopyEntries | utils/clone-util/src/main/java/io/github/khezyapp/clone/strategy/MapStrategy.java:38-42 | After the loop the copy holds the puts of the copies of all entries, in order; it fails only when some entry's clone fails, and not when every entry is inside a clonable closed set |
| CloneContexts.CloneContext.CopyEntry | utils/clone-util/src/main/java/io/github/khezyapp/clone/strategy/MapStrategy.java:38-42 | One loop pass: the copy holds the puts of the copies of the first i + 1 entries; a failure is the entry's clone failure, and there is none when the children are in a clonable closed set |
| CloneContexts.CloneContext.CollectionCopy | utils/clone-util/src/main/java/io/github/khezyapp/clone/strategy/CollectionStrategy.java:27-45 | CollectionStrategy.copy: a nested failure is passed on as it is; it succeeds whenever every object it reaches is clonable; on success the result is the origin's copy and every copy made meanwhile is finished |
| CloneContexts.CloneContext.CopyItems | utils/clone-util/src/main/java/io/github/khezyapp/clone/strategy/CollectionStrategy.java:39-42 | After the loop the copy holds the adds of the copies of all items, in order; it fails only when some item's clone fails, and not when every item is inside a clonable closed set |
| CloneContexts.CloneContext.CopyItem | utils/clone-util/src/main/java/io/github/khezyapp/clone/strategy/CollectionStrategy.java:39-42 | One loop pass: the copy holds the adds of the copies of the first i + 1 items; a failure is the item's clone failure, and there is none when the children are in a clonable closed set |
| CloneContexts.CloneContext.ArrayCopy | utils/clone-util/src/main/java/io/github/khezyapp/clone/strategy/ArrayStrategy.java:24-37 | ArrayStrategy.copy: a nested failure is passed on as it is; it succeeds whenever every object it reaches is clonable; on success the result is the origin's copy and every copy made meanwhile is finished |
| CloneContexts.CloneContext.CopySlots | utils/clone-util/src/main/java/io/github/khezyapp/clone/strategy/ArrayStrategy.java:31-34 | After the loop every slot of the copy holds the copy of the origin's slot; it fails only when some slot's clone fails, and not when every slot is inside a clonable closed set |
| CloneContexts.CloneContext.CopySlot | utils/clone-util/src/main/java/io/github/khezyapp/clone/strategy/ArrayStrategy.java:31-34 | One loop pass: the first i + 1 slots hold copies and the remaining slots are still null; a failure is the slot's clone failure, and there is none when the children are in a clonable closed set |
| CloneContexts.CloneContext.ReflectionCopy | utils/clone-util/src/main/java/io/github/khezyapp/clone/strategy/ReflectionStrategy.java:28-54 | ReflectionStrategy.copy: without a no-arg constructor it fails; every failure is wrapped; it succeeds whenever every object it reaches is clonable; on success the result is the origin's copy |
| CloneContexts.CloneContext.CopyHierarchy | utils/clone-util/src/main/java/io/github/khezyapp/clone/strategy/ReflectionStrategy.java:38-49 | After the outer loop, every walked eligible field holds the copy of the origin's value; it does not fail when every such value is in a clonable closed set |
| CloneContexts.CloneContext.CopyLevel | utils/clone-util/src/main/java/io/github/khezyapp/clone/strategy/ReflectionStrategy.java:40-47 | One class of the chain: its declared fields are added to the fields copied so far; no failure when the level's eligible values are in a clonable closed set |
| CloneContexts.CloneContext.CopyField | utils/clone-util/src/main/java/io/github/khezyapp/clone/strategy/ReflectionStrategy.java:41-46 | An ineligible field is skipped; an eligible one is set to the copy of its value; no failure when the level's eligible values are in a clonable closed set |
| CloneContexts.ReflectionExpected | utils/clone-util/src/main/java/io/github/khezyapp/clone/strategy/ReflectionStrategy.java:28-54 | A reflective copy is expected to have the origin's class and the copies of exactly the walked eligible fields |
| CloneContexts.PairsStep | utils/clone-util/src/main/java/io/github/khezyapp/clone/strategy/MapStrategy.java:38-42 | One more entry extends the map copy by the put of that entry's copies |
| CloneContexts.PutAllSnoc | utils/clone-util/src/main/java/io/github/khezyapp/clone/strategy/MapStrategy.java:38-42 | Putting one more pair is a put on the map built so far |
| CloneContexts.SeqStep | utils/clone-util/src/main/java/io/github/khezyapp/clone/strategy/CollectionStrategy.java:39-42 | One more item extends the element copies by that item's copy |
| CloneContexts.SlotWrite | utils/clone-util/src/main/java/io/github/khezyapp/clone/strategy/ArrayStrategy.java:31-34 | Setting the first unfilled slot keeps the filled prefix and the null remainder |
| CloneContexts.FieldsStep | utils/clone-util/src/main/java/io/github/khezyapp/clone/strategy/ReflectionStrategy.java:41-46 | One more declared field extends the copied fields by that field, if it is eligible |
| CloneTheorems.CopyAt | utils/clone-util/src/main/java/io/github/khezyapp/clone/DefaultCloner.java:50-53 | After a clone, each registered copy is a new node, not an origin node, and holds what its strategy builds |
| CloneTheorems.DistinctCopies | utils/clone-util/src/main/java/io/github/khezyapp/clone/api/CloneContext.java:25-28 | Identity decides copies: distinct origin objects, even equal ones, get distinct copies |
| CloneTheorems.WholeHeapClosed | utils/clone-util/src/main/java/io/github/khezyapp/clone/api/CloneContext.java:56-66 | A heap whose objects are each clonable on its own is a clonable closed set, so proceed succeeds on any value in it |
| CloneTheorems.EngineHeapClosed | utils/clone-util/src/main/java/io/github/khezyapp/clone/strategy/ReflectionStrategy.java:31-34 | Under the built-in chain of the shared engine, the only way a clone fails is a class that reflection needs and that has no no-argument constructor: otherwise the whole heap is a clonable closed set |
| CloneTheorems.CopyFieldsAt | utils/clone-util/src/main/java/io/github/khezyapp/clone/strategy/ReflectionStrategy.java:40-47 | Reflection sets exactly the eligible fields, each to the copy of the origin's value |
| CloneTheorems.ReflectionFieldImage | utils/clone-util/src/main/java/io/github/khezyapp/clone/strategy/ReflectionStrategy.java:28-68 | A reflective copy has the origin's class; its walked eligible fields hold copies, and every other field (static, transient, @IgnoreClone, above Object) reads null in the model, whose fresh instance has no field set |
| CloneTheorems.FieldFollow | utils/clone-util/src/main/java/io/github/khezyapp/clone/strategy/ReflectionStrategy.java:45-46 | A copied field that referred to a copied object now refers to that object's copy |
| CloneTheorems.TwoCycle | utils/clone-util/src/main/java/io/github/khezyapp/clone/api/CloneContext.java:61-63 | Two objects that refer to each other clone to two new distinct objects that refer to each other |
| CloneTheorems.SharedStaysShared | utils/clone-util/src/main/java/io/github/khezyapp/clone/api/CloneContext.java:61-63 | Two fields sharing one origin object share one object in the copies |
| CloneTheorems.AddAllList | utils/clone-util/src/main/java/io/github/khezyapp/clone/strategy/CollectionStrategy.java:39-42 | Adding the items one by one to an empty list gives all the items in order |
| CloneTheorems.AddAllSet | utils/clone-util/src/main/java/io/github/khezyapp/clone/strategy/CollectionStrategy.java:39-42 | Adding to an empty set gives exactly the items, without duplicates |
| CloneTheorems.ListCopy | utils/clone-util/src/main/java/io/github/khezyapp/clone/strategy/CollectionStrategy.java:27-45 | A copied list has the destination class, the same length, and element i is the copy of origin element i |
| CloneTheorems.SetCopy | utils/clone-util/src/main/java/io/github/khezyapp/clone/strategy/CollectionStrategy.java:27-45 | A copied set is duplicate-free and holds exactly the copies of the origin's elements |
| CloneTheorems.ArrayCopyShape | utils/clone-util/src/main/java/io/github/khezyapp/clone/strategy/ArrayStrategy.java:24-37 | A copied array has the origin's class and length, and slot i is the copy of origin slot i |
| CloneTheorems.PutAllLookup | utils/clone-util/src/main/java/io/github/khezyapp/clone/strategy/MapStrategy.java:38-42 | After putting pairs in order, each key maps to the value of its last pair |
| CloneTheorems.PutAllShape | utils/clone-util/src/main/java/io/github/khezyapp/clone/strategy/MapStrategy.java:38-42 | Putting pairs gives distinct keys, exactly the keys put, and no more entries than pairs |
| CloneTheorems.MapCopyShape | utils/clone-util/src/main/java/io/github/khezyapp/clone/strategy/MapStrategy.java:26-45 | A copied map has the destination class and distinct keys; each key maps to the copy of the last origin value whose key copies to it |
| CloneTheorems.ImgDetached | utils/clone-util/src/main/java/io/github/khezyapp/clone/api/CloneContext.java:56-66 | What proceed returns is null, a new copy, a shared immutable or a user strategy's result |
| CloneTheorems.MapPutFrom | utils/clone-util/src/main/java/io/github/khezyapp/clone/strategy/MapStrategy.java:38-42 | A put adds no entry other than the pair put |
| CloneTheorems.PutAllFrom | utils/clone-util/src/main/java/io/github/khezyapp/clone/strategy/MapStrategy.java:38-42 | Every entry of a map built by puts is one of the pairs put |
| CloneTheorems.ImagesDetached | utils/clone-util/src/main/java/io/github/khezyapp/clone/api/CloneContext.java:56-66 | The copies of settled origin values contain no mutable origin object |
| CloneTheorems.MapCopyDetached | utils/clone-util/src/main/java/io/github/khezyapp/clone/strategy/MapStrategy.java:38-42 | A map copy's keys and values contain no mutable origin object |
| CloneTheorems.CollectionCopyDetached | utils/clone-util/src/main/java/io/github/khezyapp/clone/strategy/CollectionStrategy.java:39-42 | A collection copy's elements contain no mutable origin object |
| CloneTheorems.ArrayCopyDetached | utils/clone-util/src/main/java/io/github/khezyapp/clone/strategy/ArrayStrategy.java:31-34 | An array copy's slots contain no mutable origin object |
| CloneTheorems.FieldsCopyDetached | utils/clone-util/src/main/java/io/github/khezyapp/clone/strategy/ReflectionStrategy.java:40-47 | A reflective copy's fields contain no mutable origin object |
| CloneTheorems.CopyDetached | utils/clone-util/src/main/java/io/github/khezyapp/clone/DefaultCloner.java:50-53 | No copy a clone leaves refers to a mutable origin object |
| CloneTheorems.OriginReferenceShared | utils/clone-util/src/main/java/io/github/khezyapp/clone/strategy/ImmutableStrategy.java:51-54 | An origin object a copy refers to is one that ImmutableStrategy shares or that a user strategy returns |
| Clones.ReversedStrategies | utils/clone-util/src/main/java/io/github/khezyapp/clone/Clones.java:32-38 | The strategies back to front: same length, and element i is element length - 1 - i |
| Clones.ReversedSnoc | utils/clone-util/src/main/java/io/github/khezyapp/clone/Clones.java:32-38 | Registering one more strategy puts it at the front of the reversed list |
| Clones.ReversedLookup | utils/clone-util/src/main/java/io/github/khezyapp/clone/Clones.java:32-38 | A lookup in the reversed list finds the last supporting strategy of the argument list |
| Clones.DefaultClonerOf | utils/clone-util/src/main/java/io/github/khezyapp/clone/Clones.java:32-38 | defaultCloner's chain is the custom strategies in reverse order, then the built-ins |
| Clones.CustomStrategyPrecedence | utils/clone-util/src/main/java/io/github/khezyapp/clone/Clones.java:32-38 | The last custom strategy supporting a class wins; otherwise the built-in selection applies, and some strategy is always found |
| Clones.DeepCloneWith | utils/clone-util/src/main/java/io/github/khezyapp/clone/DefaultCloner.java:50-53 | deepClone keeps the origin nodes and returns null for null; a failure is NoStrategyFound or a wrapped reflective failure, and there is none when every object the clone reaches is clonable; on success it returns the value's copy with every copy finished |
| Clones.DeepClone | utils/clone-util/src/main/java/io/github/khezyapp/clone/Clones.java:47-49 | Clones.deepClone is deepClone on the shared default engine, with the same guarantees: success when every object reached is clonable, and then the value's copy |
| MapCaches.InsertKeeps | utils/dynamic-object/src/main/java/io/github/khezyapp/doa/cache/MapCache.java:69-72 | An insert followed by removeEldestEntry keeps the cache bounded, stores the new value, and evicts only the eldest key when full |
| MapCaches.MapCache.Default | utils/dynamic-object/src/main/java/io/github/khezyapp/doa/cache/MapCache.java:25-27 | The default cache is empty with a bound of 1000 entries |
| MapCaches.MapCache.constructor | utils/dynamic-object/src/main/java/io/github/khezyapp/doa/cache/MapCache.java:35-40 | A cache is empty with the given bound |
| MapCaches.MapCache.Get | utils/dynamic-object/src/main/java/io/github/khezyapp/doa/cache/MapCache.java:50-53 | A cached key returns its value and changes nothing; otherwise the computed value, which is stored on success with eldest-first eviction; a failure stores nothing |
| MapCaches.MapCache.Clear | utils/dynamic-object/src/main/java/io/github/khezyapp/doa/cache/MapCache.java:58-61 | clear empties the cache |
| MapCaches.NewMapCache | utils/dynamic-object/src/main/java/io/github/khezyapp/doa/cache/MapCache.java:35-40 | A negative bound is refused exactly; otherwise the cache is empty with that bound |
| PathParsing.StripQuotes | utils/dynamic-object/src/main/java/io/github/khezyapp/doa/engine/DefaultPathParser.java:112-114 | It succeeds exactly for texts of at least two characters and then returns the text without its first and last characters |
| PathParsing.DigitOf | utils/dynamic-object/src/main/java/io/github/khezyapp/doa/engine/DefaultPathParser.java:116-118 | A digit's value is below ten |
| PathParsing.DigitsPrefixGrows | utils/dynamic-object/src/main/java/io/github/khezyapp/doa/engine/DefaultPathParser.java:72-74 | The digits read so far never outweigh the whole number, so an overflow midway is an overflow of the whole |
| PathParsing.ParseDigitsFromValue | utils/dynamic-object/src/main/java/io/github/khezyapp/doa/engine/DefaultPathParser.java:72-74 | The digit loop, resumed after any prefix that fits, ends with the decimal value or the overflow error |
| PathParsing.ParseIntValue | utils/dynamic-object/src/main/java/io/github/khezyapp/doa/engine/DefaultPathParser.java:72-74 | Integer.parseInt on a numeric text succeeds exactly when the value fits in an int, and then returns the decimal value; otherwise NumberFormatException |
| PathParsing.SegEnd | utils/dynamic-object/src/main/java/io/github/khezyapp/doa/engine/DefaultPathParser.java:82-85 | A bare segment ends at the first '.' or '[' or at the end of the path |
| PathParsing.SegEndUnique | utils/dynamic-object/src/main/java/io/github/khezyapp/doa/engine/DefaultPathParser.java:82-85 | Any index with those properties is the segment end |
| PathParsing.SegmentToken | utils/dynamic-object/src/main/java/io/github/khezyapp/doa/engine/DefaultPathParser.java:86-92 | A segment yields a token unless it is empty or just "?"; a trailing '?' marks safe access and is cut off |
| PathParsing.BracketTokenCases | utils/dynamic-object/src/main/java/io/github/khezyapp/doa/engine/DefaultPathParser.java:64-79 | A quoted bracket gives the unquoted name, a numeric one an index (or the overflow error), anything else the name as written; never safe access |
| PathParsing.StepAt | utils/dynamic-object/src/main/java/io/github/khezyapp/doa/engine/DefaultPathParser.java:56-93 | Each pass of the scan consumes at least one character and yields at most one token; only a bracket can fail |
| PathParsing.FindClosingBracket | utils/dynamic-object/src/main/java/io/github/khezyapp/doa/engine/DefaultPathParser.java:98-105 | It returns the first ']' at or after the start, or the unmatched-bracket error when there is none |
| PathParsing.ReadBracket | utils/dynamic-object/src/main/java/io/github/khezyapp/doa/engine/DefaultPathParser.java:64-79 | The bracket branch agrees with the pass of the scan at that index |
| PathParsing.ReadSegment | utils/dynamic-object/src/main/java/io/github/khezyapp/doa/engine/DefaultPathParser.java:80-93 | The property branch agrees with the pass of the scan at that index |
| PathParsing.DoParse | utils/dynamic-object/src/main/java/io/github/khezyapp/doa/engine/DefaultPathParser.java:51-96 | The scanning loop computes the path's tokens, or the first error met |
| PathParsing.TokensShift | utils/dynamic-object/src/main/java/io/github/khezyapp/doa/engine/DefaultPathParser.java:51-96 | Parsing from inside the second of two texts does not depend on the first |
| PathParsing.LexDotExtend | utils/dynamic-object/src/main/java/io/github/khezyapp/doa/engine/DefaultPathParser.java:59-93 | A pass over p that leaves no bracket open reads the same once p is followed by a dot and more |
| PathParsing.DotLexemesFrom | utils/dynamic-object/src/main/java/io/github/khezyapp/doa/engine/DefaultPathParser.java:51-96 | The passes over "p.q" read those over p, the dot, then those over q, when p leaves no bracket open |
| PathParsing.InterpretAppend | utils/dynamic-object/src/main/java/io/github/khezyapp/doa/engine/DefaultPathParser.java:51-96 | Tokens of two runs of passes, the first succeeding, are the first run's tokens followed by the second's (or its error) |
| PathParsing.InterpretDot | utils/dynamic-object/src/main/java/io/github/khezyapp/doa/engine/DefaultPathParser.java:59-62 | A dot between two runs of passes emits nothing and only separates them |
| PathParsing.UnclosedFails | utils/dynamic-object/src/main/java/io/github/khezyapp/doa/engine/DefaultPathParser.java:98-105 | A bracket left open anywhere makes the whole parse fail |
| PathParsing.LexemesShift | utils/dynamic-object/src/main/java/io/github/khezyapp/doa/engine/DefaultPathParser.java:51-96 | The passes from inside the second of two texts do not depend on the first |
| PathParsing.BracketFromFinds | utils/dynamic-object/src/main/java/io/github/khezyapp/doa/engine/DefaultPathParser.java:98-105 | The bracket pass stops at the first ']' after the '[', or leaves the bracket open when there is none |
| PathParsing.SegmentFromEnds | utils/dynamic-object/src/main/java/io/github/khezyapp/doa/engine/DefaultPathParser.java:82-85 | The segment pass stops exactly at the segment end |
| PathParsing.DotConcat | utils/dynamic-object/src/main/java/io/github/khezyapp/doa/engine/DefaultPathParser.java:51-96 | Parsing "p.q" gives the tokens of p followed by the tokens of q, or the first error |
| PathParsing.UnmatchedBracketFails | utils/dynamic-object/src/main/java/io/github/khezyapp/doa/engine/DefaultPathParser.java:98-105 | A '[' with no ']' after it always makes the parse fail with the unmatched-bracket error |
| PathParsing.PropertyTokens | utils/dynamic-object/src/main/java/io/github/khezyapp/doa/engine/DefaultPathParser.java:86-92 | Each name gives one property token without safe access, in order |
| PathParsing.PlainNameParses | utils/dynamic-object/src/main/java/io/github/khezyapp/doa/engine/DefaultPathParser.java:80-93 | A plain name parses to a single property token |
| PathParsing.JoinedNamesParse | utils/dynamic-object/src/main/java/io/github/khezyapp/doa/engine/DefaultPathParser.java:51-96 | Plain names joined by dots parse back to one property token per name |
| PathParsing.DecimalString | utils/dynamic-object/src/main/java/io/github/khezyapp/doa/engine/DefaultPathParser.java:116-118 | The decimal writing of a number is numeric |
| PathParsing.DecimalValue | utils/dynamic-object/src/main/java/io/github/khezyapp/doa/engine/DefaultPathParser.java:72-74 | Reading the decimal writing of n gives back n |
| PathParsing.DigitsToken | utils/dynamic-object/src/main/java/io/github/khezyapp/doa/engine/DefaultPathParser.java:64-79 | The digits of an int-sized index inside brackets give that index token |
| PathParsing.IndexRoundTrip | utils/dynamic-object/src/main/java/io/github/khezyapp/doa/engine/DefaultPathParser.java:51-96 | The path "[n]" parses back to the index token n |
| PathParsing.DefaultPathParser.constructor | utils/dynamic-object/src/main/java/io/github/khezyapp/doa/engine/DefaultPathParser.java:28-30 | The parser keeps the cache it is given |
| PathParsing.DefaultPathParser.Parse | utils/dynamic-object/src/main/java/io/github/khezyapp/doa/engine/DefaultPathParser.java:44-49 | A null or blank path is refused and the cache is untouched; a cached path returns its cached tokens and leaves the cache as it was; any other path is scanned, and a successful scan is inserted with eviction, and a failed one leaves the cache as it was; with a consistent cache the result is the path's tokens |
| TypeAdapters.Supports | utils/dynamic-object/src/main/java/io/github/khezyapp/doa/adapters/MapAdapter.java:21-24 | Each map, record or bean is supported by exactly its own adapter (MapAdapter, RecordAdapter, or BeanAdapter as at BeanAdapter.java:49-53); no property adapter supports a list, and only the bean adapter accepts null, since no `instanceof` test holds for it |
| TypeAdapters.MapGetValue | utils/dynamic-object/src/main/java/io/github/khezyapp/doa/adapters/MapAdapter.java:33-37 | An absent key reads as null; a non-null result is the value stored under the key |
| TypeAdapters.MapSetValue | utils/dynamic-object/src/main/java/io/github/khezyapp/doa/adapters/MapAdapter.java:47-53 | The same map comes back, its class kept, with the key added to its key set and reading back the value put |
| TypeAdapters.SupportsByKind | utils/dynamic-object/src/main/java/io/github/khezyapp/doa/adapters/MapAdapter.java:21-24 | Whether an adapter supports an object depends only on its kind, hence on its class |
| TypeAdapters.MapSetThenGet | utils/dynamic-object/src/main/java/io/github/khezyapp/doa/adapters/MapAdapter.java:33-53 | After a put the key reads back the value and every other key reads as before |
| TypeAdapters.ComponentValue | utils/dynamic-object/src/main/java/io/github/khezyapp/doa/adapters/RecordAdapter.java:105-126 | A name is found exactly when some component has it, with the value of the component registered last |
| TypeAdapters.RecordGetValue | utils/dynamic-object/src/main/java/io/github/khezyapp/doa/adapters/RecordAdapter.java:53-68 | A component reads as its value; a name that is no component is an error |
| TypeAdapters.RecordSetValue | utils/dynamic-object/src/main/java/io/github/khezyapp/doa/adapters/RecordAdapter.java:82-100 | The new record has the same class, and its components are the old ones with the named component replaced |
| TypeAdapters.RecordSetThenGet | utils/dynamic-object/src/main/java/io/github/khezyapp/doa/adapters/RecordAdapter.java:53-100 | A record written at a component reads back the value there |
| TypeAdapters.RecordSetKeepsOthers | utils/dynamic-object/src/main/java/io/github/khezyapp/doa/adapters/RecordAdapter.java:82-100 | Writing one component keeps every other component's value |
| TypeAdapters.RecordSetUnknown | utils/dynamic-object/src/main/java/io/github/khezyapp/doa/adapters/RecordAdapter.java:82-100 | Writing a name that is no component gives a record equal to the original |
| TypeAdapters.AccessorTable | utils/dynamic-object/src/main/java/io/github/khezyapp/doa/adapters/BeanAdapter.java:120-150 | The table holds exactly the selected accessors, each under its decapitalised property, the later one winning; an accessor named just get or set fails the inspection |
| TypeAdapters.AccessorTableFails | utils/dynamic-object/src/main/java/io/github/khezyapp/doa/adapters/BeanAdapter.java:120-150 | Once a prefix of the methods makes the inspection fail, the whole inspection fails |
| TypeAdapters.InspectTable | utils/dynamic-object/src/main/java/io/github/khezyapp/doa/adapters/BeanAdapter.java:120-150 | The loop over the methods builds the accessor table, or reports its failure |
| TypeAdapters.BeanAccessFails | utils/dynamic-object/src/main/java/io/github/khezyapp/doa/adapters/BeanAdapter.java:62-102 | A bean read or write fails exactly when its class has a getter named "get" or a setter named "set" |
| TypeAdapters.BeanGetValue | utils/dynamic-object/src/main/java/io/github/khezyapp/doa/adapters/BeanAdapter.java:62-76 | The read fails exactly when the class has a getter named just "get"; a property with a getter reads its value, and a non-null result is that property's value |
| TypeAdapters.BeanSetValue | utils/dynamic-object/src/main/java/io/github/khezyapp/doa/adapters/BeanAdapter.java:86-102 | The write fails exactly when the class has a setter named just "set"; the same bean comes back with its class and methods, a property with a setter holds the value, and every other property is unchanged |
| TypeAdapters.BeanMissingAccessor | utils/dynamic-object/src/main/java/io/github/khezyapp/doa/adapters/BeanAdapter.java:62-102 | A property with no getter reads as null; writing a property with no setter leaves the bean as it was |
| TypeAdapters.BeanSetThenGet | utils/dynamic-object/src/main/java/io/github/khezyapp/doa/adapters/BeanAdapter.java:62-102 | A property with both a getter and a setter reads back what was written |
| TypeAdapters.GetValue | utils/dynamic-object/src/main/java/io/github/khezyapp/doa/adapters/BeanAdapter.java:62-76 | Each adapter's getValue reads the property as its own rules say |
| TypeAdapters.SetValue | utils/dynamic-object/src/main/java/io/github/khezyapp/doa/adapters/RecordAdapter.java:82-100 | Each adapter's setValue writes the property as its own rules say |
| TypeAdapters.AdapterSetKeepsOthers | utils/dynamic-object/src/main/java/io/github/khezyapp/doa/adapters/MapAdapter.java:47-53 | A write through an adapter keeps the object's class and kind and every other property |
| TypeAdapters.AdapterGetKeepsClasses | utils/dynamic-object/src/main/java/io/github/khezyapp/doa/adapters/BeanAdapter.java:62-76 | What an adapter reads is an object described by the same class table |
| TypeAdapters.ListGetValue | utils/dynamic-object/src/main/java/io/github/khezyapp/doa/adapters/ListAdapter.java:33-41 | An index in range reads the element, past the end reads null, and a target that is not a list is an error |
| TypeAdapters.ListSetValue | utils/dynamic-object/src/main/java/io/github/khezyapp/doa/adapters/ListAdapter.java:51-62 | An in-range write replaces that element only; past the end nothing is written and the result is null |
| TypeAdapters.ListSetThenGet | utils/dynamic-object/src/main/java/io/github/khezyapp/doa/adapters/ListAdapter.java:33-62 | An in-range write keeps the class and size, reads back the value and keeps the other slots |
| CompositeAdapters.CompositeSupports | utils/dynamic-object/src/main/java/io/github/khezyapp/doa/adapters/CompositeTypeAdapter.java:17-20 | Only null is refused, although the bean adapter's own test accepts it; every other object that is not a list has a property adapter, and a list is accepted though no property adapter takes it |
| CompositeAdapters.Delegate | utils/dynamic-object/src/main/java/io/github/khezyapp/doa/adapters/CompositeTypeAdapter.java:35-43 | The delegate is the first adapter in list order that supports the target; it fails, naming the class, exactly when none does |
| CompositeAdapters.DelegateByClass | utils/dynamic-object/src/main/java/io/github/khezyapp/doa/adapters/CompositeTypeAdapter.java:35-43 | Two objects of one class get the same delegate, so caching it by class name is sound |
| CompositeAdapters.EarlierAdaptersWin | utils/dynamic-object/src/main/java/io/github/khezyapp/doa/adapters/CompositeTypeAdapter.java:35-43 | A later adapter is reached only when no earlier one supports the target |
| CompositeAdapters.CacheSoundInsert | utils/dynamic-object/src/main/java/io/github/khezyapp/doa/adapters/CompositeTypeAdapter.java:35-43 | Caching the delegate found for a new class keeps every cached entry equal to the delegate its class would get, whatever entry is evicted |
| CompositeAdapters.CompositeGetKeepsClasses | utils/dynamic-object/src/main/java/io/github/khezyapp/doa/adapters/CompositeTypeAdapter.java:22-26 | What the composite reads is an object described by the same class table |
| CompositeAdapters.CompositeSetThenGet | utils/dynamic-object/src/main/java/io/github/khezyapp/doa/adapters/CompositeTypeAdapter.java:22-33 | A successful write through the composite keeps the object's class and kind and reads back the value |
| CompositeAdapters.CompositeSetKeepsOthers | utils/dynamic-object/src/main/java/io/github/khezyapp/doa/adapters/CompositeTypeAdapter.java:28-33 | A write through the composite leaves every other property reading as before |
| CompositeAdapters.CompositeTypeAdapter.constructor | utils/dynamic-object/src/main/java/io/github/khezyapp/doa/adapters/CompositeTypeAdapter.java:11-15 | The composite keeps the adapter list and starts with an empty cache of 250 entries |
| CompositeAdapters.CompositeTypeAdapter.GetDelegate | utils/dynamic-object/src/main/java/io/github/khezyapp/doa/adapters/CompositeTypeAdapter.java:35-43 | The cached lookup always returns the first supporting adapter; a cached class returns its cached adapter and leaves the cache as it was; on a miss the adapter found is inserted with eviction, and a failed lookup caches nothing |
| CompositeAdapters.CompositeTypeAdapter.GetValue | utils/dynamic-object/src/main/java/io/github/khezyapp/doa/adapters/CompositeTypeAdapter.java:22-26 | getValue is the delegate's getValue |
| CompositeAdapters.CompositeTypeAdapter.SetValue | utils/dynamic-object/src/main/java/io/github/khezyapp/doa/adapters/CompositeTypeAdapter.java:28-33 | setValue is the delegate's setValue |
| ObjectAccessors.Padded | utils/dynamic-object/src/main/java/io/github/khezyapp/doa/engine/DefaultObjectAccessor.java:127-129 | The padded list keeps its elements, is long enough for the index, and adds only nulls |
| ObjectAccessors.PadWithNulls | utils/dynamic-object/src/main/java/io/github/khezyapp/doa/engine/DefaultObjectAccessor.java:127-129 | The padding loop produces the padded list |
| ObjectAccessors.IndexSlot | utils/dynamic-object/src/main/java/io/github/khezyapp/doa/engine/DefaultObjectAccessor.java:121-150 | The list written to keeps its class (ArrayList for a non-list), is padded with nulls up to the index, and the slot to descend into is the element there or, when it is null and tokens follow, a fresh container for the next token |
| ObjectAccessors.PaddedAgree | utils/dynamic-object/src/main/java/io/github/khezyapp/doa/engine/DefaultObjectAccessor.java:121-152 | The elements of a padded list are nulls or elements of the original list, so they agree with the class table as the list does |
| ObjectAccessors.GetPathConcat | utils/dynamic-object/src/main/java/io/github/khezyapp/doa/engine/DefaultObjectAccessor.java:58-81 | Reading along a + b is reading along a and then along b from the result |
| ObjectAccessors.GetDottedPath | utils/dynamic-object/src/main/java/io/github/khezyapp/doa/engine/DefaultObjectAccessor.java:58-81 | Reading "p.q" is reading "q" from what "p" reads |
| ObjectAccessors.SafePathNeverFails | utils/dynamic-object/src/main/java/io/github/khezyapp/doa/engine/DefaultObjectAccessor.java:67-75 | A path of safe-access property tokens never fails |
| ObjectAccessors.IndexStepReads | utils/dynamic-object/src/main/java/io/github/khezyapp/doa/engine/DefaultObjectAccessor.java:76-78 | An index step reads through the list adapter: past the end gives null, a non-list fails |
| ObjectAccessors.SetThenGet | utils/dynamic-object/src/main/java/io/github/khezyapp/doa/engine/DefaultObjectAccessor.java:104-154 | After a successful set along a writable path, get along that path reads back the value |
| ObjectAccessors.SetThenGetProperty | utils/dynamic-object/src/main/java/io/github/khezyapp/doa/engine/DefaultObjectAccessor.java:113-120 | The property step of the set-then-get property |
| ObjectAccessors.SetThenGetIndex | utils/dynamic-object/src/main/java/io/github/khezyapp/doa/engine/DefaultObjectAccessor.java:121-152 | The index step of the set-then-get property |
| ObjectAccessors.SetKeepsSiblings | utils/dynamic-object/src/main/java/io/github/khezyapp/doa/engine/DefaultObjectAccessor.java:113-120 | A write at a property leaves every other property of that object reading as before |
| ObjectAccessors.SetIndexKeepsSlots | utils/dynamic-object/src/main/java/io/github/khezyapp/doa/engine/DefaultObjectAccessor.java:121-152 | A write at an index gives a padded list that keeps every other slot |
| ObjectAccessors.DefaultObjectAccessor.constructor | utils/dynamic-object/src/main/java/io/github/khezyapp/doa/engine/DefaultObjectAccessor.java:37-43 | The accessor keeps its parser, composite adapter and collection adapter |
| ObjectAccessors.DefaultObjectAccessor.GetProperty | utils/dynamic-object/src/main/java/io/github/khezyapp/doa/engine/DefaultObjectAccessor.java:165-172 | Reading a property goes through the composite when it supports the target |
| ObjectAccessors.DefaultObjectAccessor.SetProperty | utils/dynamic-object/src/main/java/io/github/khezyapp/doa/engine/DefaultObjectAccessor.java:156-163 | Writing a property goes through the composite when it supports the target |
| ObjectAccessors.DefaultObjectAccessor.GetIndex | utils/dynamic-object/src/main/java/io/github/khezyapp/doa/engine/DefaultObjectAccessor.java:174-177 | Reading an index goes through the collection adapter |
| ObjectAccessors.DefaultObjectAccessor.Get | utils/dynamic-object/src/main/java/io/github/khezyapp/doa/engine/DefaultObjectAccessor.java:58-81 | get fails without a parser; otherwise it is the parsed path read from the target |
| ObjectAccessors.DefaultObjectAccessor.Walk | utils/dynamic-object/src/main/java/io/github/khezyapp/doa/engine/DefaultObjectAccessor.java:62-80 | The token loop reads the value at the tokens, stopping with null once the current object is null |
| ObjectAccessors.DefaultObjectAccessor.SetRecursive | utils/dynamic-object/src/main/java/io/github/khezyapp/doa/engine/DefaultObjectAccessor.java:104-154 | setRecursive computes the written object for the remaining tokens |
| ObjectAccessors.DefaultObjectAccessor.SetPropertyAt | utils/dynamic-object/src/main/java/io/github/khezyapp/doa/engine/DefaultObjectAccessor.java:113-120 | The property step: the child, a new map if it is null, is updated and written back |
| ObjectAccessors.DefaultObjectAccessor.SetIndexAt | utils/dynamic-object/src/main/java/io/github/khezyapp/doa/engine/DefaultObjectAccessor.java:121-152 | The index step: a list, padded with nulls, gets the updated child at the index |
| ObjectAccessors.DefaultObjectAccessor.Set | utils/dynamic-object/src/main/java/io/github/khezyapp/doa/engine/DefaultObjectAccessor.java:96-101 | set fails without a parser; otherwise it is the parsed path written into the target |
| AccessorFactories.AccessorFactory.constructor | utils/dynamic-object/src/main/java/io/github/khezyapp/doa/builder/AccessorFactoryImpl.java:24-26 | A new factory has no adapters, no collection adapter and no parser |
| AccessorFactories.AccessorFactory.RegisterAdapter | utils/dynamic-object/src/main/java/io/github/khezyapp/doa/builder/AccessorFactoryImpl.java:39-44 | A null adapter is refused and nothing changes; otherwise the adapter goes after those registered before |
| AccessorFactories.AccessorFactory.RegisterCollectionAdapter | utils/dynamic-object/src/main/java/io/github/khezyapp/doa/builder/AccessorFactoryImpl.java:57-62 | A null adapter is refused; otherwise it replaces the collection adapter |
| AccessorFactories.AccessorFactory.WithParser | utils/dynamic-object/src/main/java/io/github/khezyapp/doa/builder/AccessorFactoryImpl.java:71-76 | A null parser is refused; otherwise it replaces the parser |
| AccessorFactories.AccessorFactory.Build | utils/dynamic-object/src/main/java/io/github/khezyapp/doa/builder/AccessorFactoryImpl.java:88-95 | The accessor has the current parser and collection adapter and a new composite over the registered adapters |
| AccessorFactories.DynamicObjects | utils/dynamic-object/src/main/java/io/github/khezyapp/doa/DynamicObjects.java:30-41 | The shared accessor uses the map, bean and record adapters in that order, the list adapter, and a parser with an empty cache of 250 paths |
| AccessorFactories.DefaultDelegates | utils/dynamic-object/src/main/java/io/github/khezyapp/doa/DynamicObjects.java:31-40 | With the defaults, maps go to the map adapter, records to the record adapter and beans to the bean adapter; a property of a list fails |
| StringUtils.IsBlankText | utils/string-util/src/main/java/io/github/khezy/utils/StringUtil.java:52-56 | True exactly for a non-null text whose every character is whitespace, so never for null |
| StringUtils.IsNotBlank | utils/string-util/src/main/java/io/github/khezy/utils/StringUtil.java:64-66 | True for null and for a text with some character that is not whitespace |
| StringUtils.IsEmptyText | utils/string-util/src/main/java/io/github/khezy/utils/StringUtil.java:74-78 | True exactly for the non-null empty text, which is also blank |
| StringUtils.IsNotEmpty | utils/string-util/src/main/java/io/github/khezy/utils/StringUtil.java:86-88 | True for null and for a text of at least one character |
| StringUtils.NullAndEmpty | utils/string-util/src/main/java/io/github/khezy/utils/StringUtil.java:52-88 | Null is neither blank nor empty; an empty text is blank |
| StringUtils.BlankIffStripsToEmpty | utils/string-util/src/main/java/io/github/khezy/utils/StringUtil.java:52-56 | A text is blank exactly when it is not null and strips to the empty text |
| StringUtils.Equals | utils/string-util/src/main/java/io/github/khezy/utils/StringUtil.java:97-100 | True exactly when both are null, or both are texts and equal |
| StringUtils.EqualsIgnoringCase | utils/string-util/src/main/java/io/github/khezy/utils/StringUtil.java:110-114 | Texts equal ignoring case have the same length, null counting as "" |
| StringUtils.EqualsIgnoringCaseProperties | utils/string-util/src/main/java/io/github/khezy/utils/StringUtil.java:97-114 | Equality implies equality ignoring case; null equals "" ignoring case; the comparison is symmetric |
| StringUtils.Reversed | utils/string-util/src/main/java/io/github/khezy/utils/StringUtil.java:123-131 | The reversal has the same length and character i is character length - 1 - i |
| StringUtils.ReverseTwice | utils/string-util/src/main/java/io/github/khezy/utils/StringUtil.java:123-131 | Reversing twice gives the text back |
| StringUtils.Reverse | utils/string-util/src/main/java/io/github/khezy/utils/StringUtil.java:123-131 | reverse returns the reversal of the text, and "" for null |
| StringUtils.StripText | utils/string-util/src/main/java/io/github/khezy/utils/StringUtil.java:152-155 | Null gives "" or null as the flag says; a text gives a text that is no longer |
| StringUtils.StripOrEmpty | utils/string-util/src/main/java/io/github/khezy/utils/StringUtil.java:140-142 | strip(text) never returns null |
| StringUtils.StripIdempotent | utils/string-util/src/main/java/io/github/khezy/utils/StringUtil.java:140-155 | Stripping twice strips nothing more |
| StringUtils.Copies | utils/string-util/src/main/java/io/github/khezy/utils/StringUtil.java:185-190 | k copies of a prefix have k times its length |
| StringUtils.StrippedLeftShape | utils/string-util/src/main/java/io/github/khezy/utils/StringUtil.java:178-193 | The text is some copies of the prefix followed by the result; at most one copy without repeat; with repeat the result no longer starts with the prefix |
| StringUtils.StripLeft | utils/string-util/src/main/java/io/github/khezy/utils/StringUtil.java:165-193 | A null text or a null or empty prefix gives the text back; otherwise the do-while loop leaves the stripped text |
| StringUtils.StrippedRightShape | utils/string-util/src/main/java/io/github/khezy/utils/StringUtil.java:216-231 | The text is the result followed by some copies of the suffix; at most one copy without repeat; with repeat the result no longer ends with the suffix |
| StringUtils.CopiesSnoc | utils/string-util/src/main/java/io/github/khezy/utils/StringUtil.java:223-228 | One more copy can be added at the end as well as at the front |
| StringUtils.StripRight | utils/string-util/src/main/java/io/github/khezy/utils/StringUtil.java:203-231 | A null text or a null or empty suffix gives the text back; otherwise the do-while loop leaves the stripped text |
| StringUtils.Split | utils/string-util/src/main/java/io/github/khezy/utils/StringUtil.java:276-306 | split fills the list with the pieces, joining the rest into the last element when empty pieces are kept and a limit applies; null gives no pieces |
| StringUtils.SplitDefault | utils/string-util/src/main/java/io/github/khezy/utils/StringUtil.java:241-244 | split(text, pattern) drops the trailing empty pieces only |
| StringUtils.SplitByPreservedEmpty | utils/string-util/src/main/java/io/github/khezy/utils/StringUtil.java:254-257 | splitByPreservedEmpty keeps every piece |
| StringUtils.SplitIgnoresLimit | utils/string-util/src/main/java/io/github/khezy/utils/StringUtil.java:284-304 | Without preserved empty pieces only the sign of the limit matters: no cap on the count, and a negative limit keeps trailing empty pieces |
| StringUtils.SplitLimited | utils/string-util/src/main/java/io/github/khezy/utils/StringUtil.java:286-301 | With preserved empty pieces and a positive limit: min(limit, pieces) elements, all but the last unchanged, and joining them gives back the text |
| StringUtils.RSplitLimited | utils/string-util/src/main/java/io/github/khezy/utils/StringUtil.java:375-392 | A reachable limit gives exactly that many elements; otherwise the pieces are kept as they are |
| StringUtils.HandleLimitRSplit | utils/string-util/src/main/java/io/github/khezy/utils/StringUtil.java:375-392 | The stack loop from the last piece produces the limited split |
| StringUtils.RSplit | utils/string-util/src/main/java/io/github/khezy/utils/StringUtil.java:352-373 | rsplit returns no pieces for null, and otherwise the pieces limited from the right when the limit is positive |
| StringUtils.RSplitDefault | utils/string-util/src/main/java/io/github/khezy/utils/StringUtil.java:316-320 | rsplit(text, pattern, limit) returns min(limit, pieces) elements for a positive limit |
| StringUtils.RSplitByPreservedEmpty | utils/string-util/src/main/java/io/github/khezy/utils/StringUtil.java:330-334 | rsplitByPreservedEmpty returns min(limit, pieces) elements for a positive limit, empty pieces counted |
| StringUtils.RSplitLimitedRoundTrip | utils/string-util/src/main/java/io/github/khezy/utils/StringUtil.java:352-392 | With preserved empty pieces and a positive limit: min(limit, pieces) elements, all but the first unchanged, and joining them gives back the text |
| StringUtils.RSplitAppliesLimit | utils/string-util/src/main/java/io/github/khezy/utils/StringUtil.java:352-392 | Without preserved empty pieces a positive limit caps the count, a non-positive one keeps the split, and the join of the pieces is preserved |
| StringUtils.JoinAppend | utils/string-util/src/main/java/io/github/khezy/utils/StringUtil.java:293-296 | Joining two non-empty lists is joining each and putting the delimiter between |
| StringUtils.JoinRegroupTail | utils/string-util/src/main/java/io/github/khezy/utils/StringUtil.java:291-300 | Joining the tail pieces into one element keeps the overall join |
| StringUtils.JoinRegroupHead | utils/string-util/src/main/java/io/github/khezy/utils/StringUtil.java:375-392 | Joining the head pieces into one element keeps the overall join |
| JavaString.StripIsInnerSlice | utils/string-util/src/main/java/io/github/khezy/utils/StringUtil.java:140-155 | Stripping removes whitespace only, and only at the two ends |
| JavaString.JoinSplitAll | utils/string-util/src/main/java/io/github/khezy/utils/StringUtil.java:284-285 | Rejoining all the pieces of a split with the delimiter gives back the text |
| JavaString.SplitAllPiecesFree | utils/string-util/src/main/java/io/github/khezy/utils/StringUtil.java:284-285 | No piece of a split contains the delimiter |
| JavaString.DropTrailingEmpty | utils/string-util/src/main/java/io/github/khezy/utils/StringUtil.java:284-285 | A split with limit 0 drops exactly the trailing empty pieces |
| FileStorage.StripTrailingSlash | storage/storage-fs/src/main/java/io/github/khezyapp/fs/FileSystemStorageService.java:23-32 | The loop removes the trailing slashes, then the text is stripped |
| FileStorage.BaseUrlShape | storage/storage-fs/src/main/java/io/github/khezyapp/fs/FileSystemStorageService.java:17-32 | The base URL is no longer than given and has no whitespace at either end; a URL without whitespace loses exactly its trailing slashes |
| FileStorage.NoWhitespaceUnstripped | storage/storage-fs/src/main/java/io/github/khezyapp/fs/FileSystemStorageService.java:31 | A text without whitespace strips to itself |
| FileStorage.WhitespaceKeepsSlash | storage/storage-fs/src/main/java/io/github/khezyapp/fs/FileSystemStorageService.java:23-32 | A slash followed by whitespace survives: "files/ " becomes "files/" |
| FileStorage.FileSystemStorageService.constructor | storage/storage-fs/src/main/java/io/github/khezyapp/fs/FileSystemStorageService.java:17-21 | The base URL kept is the normalised one, and "" for null |
| FileStorage.FileSystemStorageService.GetUrl | storage/storage-fs/src/main/java/io/github/khezyapp/fs/FileSystemStorageService.java:56-59 | The URL is the base URL, a slash, and the path ("null" for a null path) |
| FileStorage.FileSystemStorageService.GetSignedUrl | storage/storage-fs/src/main/java/io/github/khezyapp/fs/FileSystemStorageService.java:61-65 | A signed URL is the plain URL |
| FileStorage.FileSystemStorageService.SignedUrlIgnoresOptions | storage/storage-fs/src/main/java/io/github/khezyapp/fs/FileSystemStorageService.java:61-65 | Two signed URLs of one path are the same whatever their options |

## Left out

- Java objects are values in the dynamic-object part. A write returns the updated
  object and hands it back to its parent. In Java, maps, lists and beans are updated
  in place. The model does not capture aliasing between two paths that reach the
  same object.
- ObjectAccessors.SetPropertyStep: a nested write under a bean property that has a
  getter and no setter is lost in the model. For `set(bean, "items[0]", x)` where
  `getItems()` returns a live list or map and there is no `setItems`, Java changes
  that child in place, and `setProperty` returns the same bean
  (DefaultObjectAccessor.java:114-119, BeanAdapter.java:93-95), so `getItems()`
  shows the write. The model builds the updated child as a value, and
  TypeAdapters.BeanSetValue, finding no setter, returns the old bean, so the update
  is discarded. The read-back lemmas (ObjectAccessors.SetThenGet and the lemmas it
  uses) require both a getter and a setter and so do not cover this case.
- ObjectAccessors.DefaultObjectAccessor.SetPropertyAt: drops the updated child in
  the case just described for ObjectAccessors.SetPropertyStep.
- ObjectAccessors.DefaultObjectAccessor.SetRecursive: a nested write under a
  getter-only bean property is lost, as described for ObjectAccessors.SetPropertyStep.
- ObjectAccessors.DefaultObjectAccessor.Set: does not promise Java's result for a
  path through a getter-only bean property, because of the lost write described
  for ObjectAccessors.SetPropertyStep.
- ObjectAccessors.DefaultObjectAccessor.SetRecursive: a write that fails part way
  leaves the containers that the Java code already created or padded. The model
  returns the failure and nothing else.
- The metadata caches of RecordAdapter (`RecordMeta`) and BeanAdapter are left
  out: the model recomputes the accessor tables on each access. The result is the
  same, but the caches' memory behaviour is not modelled.
- Reflection is modelled only as far as the code relies on it:
  - The exceptions of `MethodHandle.invoke` are not modelled.
  - Nor are the access checks of `unreflect`.
  - Nor is the validation done by a record's canonical constructor.
- TypeAdapters.RecordSetValue: record components carry no declared type, so a
  write of a mistyped value succeeds in the model. Java's
  `constructor.newInstance(args)` rejects it with an IllegalArgumentException
  wrapped in a RuntimeException: a null for an `int` component, or the HashMap that
  DefaultObjectAccessor.set creates for a null record-typed component. The
  read-back lemmas that go through a record (TypeAdapters.RecordSetThenGet,
  CompositeAdapters.CompositeSetThenGet, ObjectAccessors.SetThenGet) hold for
  those writes only in the model.
- AccessorFactories.AccessorFactory.Build: the composite adapter receives a copy of
  the factory's adapter list. In Java it keeps a reference to the factory's own
  ArrayList, so an adapter registered after `build()` is also consulted by an
  accessor built earlier; in the model it is not. The list is otherwise append
  only, so what the model leaves out is this sharing.
- Custom `TypeAdapter` and `CollectionTypeAdapter` implementations are left out.
  Only the four built-in adapters are modelled.
- Concurrency is not modelled. MapCache's Javadoc calls it thread-safe, but the
  code has no synchronisation, and the model follows the code.
- Case folding in `equalsIgnoreCase` covers ASCII letters only.
  - StringUtils.EqualsIgnoringCase states equal lengths, and
    StringUtils.EqualsIgnoringCaseProperties states reflexivity, symmetry and the
    null case. They do not state full Unicode case-folding equivalence.
- StringUtils.Split: the pattern is a literal, non-empty delimiter rather than a
  regular expression. An empty pattern is excluded by the requires clause.
- StringUtils.RSplit: the same literal, non-empty delimiter as split.
- StringUtils.Split hoists the final join out of the for loop instead of using
  `break`. The result is the same list.
- PathParsing.ParseIntValue: the model has Integer.parseInt's overflow error for values
  above Integer.MAX_VALUE. It does not model signs, since `isNumeric` admits digits
  only.
- The filesystem I/O of FileSystemStorageService is left out: upload, download,
  delete, exists and getMetadata. Only the URL operations are modelled.
- `SignedUrlOptions.expiration` is a `Duration` and is modelled as an integer count.
  Signed URLs ignore it.
- The static `DynamicObjects.get` and `DynamicObjects.set` are the accessor's
  `Get` and `Set` applied to the accessor that AccessorFactories.DynamicObjects
  builds. They have no separate member.
- The JMH benchmark and the test classes are not part of this model.
- ClassInfo abstracts the class metadata of the clone engine: supertypes,
  annotations, constructors and declared fields. Java's full reflection API is not
  modelled.
- ImmutableStrategy's name patterns are modelled as four prefix tests and one
  `contains("Unmodifiable")` test on the class name, as the code writes them.
- Clone copies allocated by the JVM are modelled as nodes appended to the heap.
  Garbage and object identity beyond references are not modelled.
- Clones.DeepCloneWith: a failed clone leaves the copies made so far in the heap,
  as the JVM would. Their completeness is promised only on success.
- CloneContexts.CloneContext.ReflectionCopy: the copy is an instance with no field
  set. So the fields reflection skips read null in the copy: static, transient and
  @IgnoreClone fields, and those of java.lang.Object and above. In Java they keep
  what the no-argument constructor and the field initialisers set, and a static
  field belongs to the class, not to the copy. Constructor code is not modelled.
- CloneTheorems.ReflectionFieldImage: the null it states for a field that is not
  copied is the model's, for the reason above.
- Clones.CustomStrategyPrecedence: a custom strategy is a set of supported class
  names and one fixed result, null or an object of the origin heap. Its copy can
  neither allocate a new object nor call `context.proceed`. A strategy that returns
  a new object on each call cannot be expressed.
- CloneHeap.CollectionAdd: sets and map keys compare objects by reference, not by
  `equals` and `hashCode`. Two distinct copies that Java would find equal stay two
  entries. CloneHeap.MapPut compares keys the same way.
- TypeAdapters.BeanGetValue: a bean is a map from property names to values. Its
  getter reads the slot of the property's name and TypeAdapters.BeanSetValue's
  setter writes it. The model does not run arbitrary getter and setter code through
  method handles, so TypeAdapters.BeanSetThenGet holds by construction. Decap
  lower-cases ASCII letters only, where `Character.toLowerCase` also lowers other
  letters (`getÉtat` names `état`).
- StringUtils.Reverse: a string is a sequence of Unicode characters, where Java's is
  a sequence of UTF-16 code units. The model reverses characters and keeps a
  supplementary character whole. Java reverses `toCharArray()` unit by unit, so it
  swaps the two halves of a surrogate pair. Lengths count characters too, for
  example the "at least two characters" of PathParsing.StripQuotes.
