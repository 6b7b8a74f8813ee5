# recordtransformer, modelled in Dafny

A model of the core of the Java library `recordtransformer`. The library wraps
an immutable Java record in a transformer. You queue field updates on the
transformer, either through a typed getter reference (`with(getter).as(value)`)
or by bare field name (`withTypeUnsafe(name, value)`). Then `transform()`
rebuilds the record through its canonical constructor. Each constructor argument
is the pending update for that parameter if there is one, and otherwise the
current value that the parameter's getter reports.

The model covers every snapshot of that engine the repository keeps:

- `RecordTransformer`: empties its pending updates on every `transform` whose
  getters all succeed, before the constructor runs.
- `RecordLens`: never empties them, so a queued update stays in force.
- `TransformableRecordWrapper`: filters its getters out of all public methods
  by name and return type. A failing accessor's reflective exception is
  wrapped in a plain `RuntimeException`; the constructor's reflective
  exceptions escape raw.
- `CachedRecordTransformer`: shares one getter table per record class through a
  cache.
- `PartialTransformation`: the `with(..).as(..)` step.

Java mutates the transformer in place and may throw afterwards. The model is
pure instead:

- A transformer is a value `State(rec, getters, updates)`.
- `transform` returns an `Outcome` that carries the state left behind in both
  cases, `Done(state)` and `Threw(error, state)`.
- A record class is a list of components and a list of extra public methods.
- A method's body reads a field, returns a constant, or throws.
- The canonical constructor is an abstract function argument. It either
  accepts, and the new record holds exactly the arguments, or it rejects. A
  rejection is either an argument of the wrong type or a constructor body that
  threw.
- The cache, a static `ConcurrentHashMap` in Java, is an explicit value threaded
  from one construction to the next.

Modules, in dependency order:

- `Wrappers`: `Result`.
- `Records`: values, Java types, record classes, `Method.invoke`.
- `Engine`: state, exceptions, getter call, argument assembly, `Map.put` and
  `Collectors.toMap`.
- `PartialTransformation`.
- `RecordTransformer`, `RecordLens`, `TransformableRecordWrapper`,
  `CachedRecordTransformer`.
- `Scenarios`: the repository's tests and examples, written as concrete
  records.

Some behaviours are easy to miss in the Java, and the model proves each of them:

- The getter of every parameter runs, even for a parameter with a pending
  update, because it is the eagerly evaluated default argument of
  `getOrDefault`. A throwing getter therefore aborts the transform whatever is
  queued.
- `RecordTransformer` empties the updates after the getters have run but
  before the constructor is called. So a constructor failure loses the queued
  updates and keeps the old record.
- `RecordLens` and `TransformableRecordWrapper` never empty their updates.
  Every later `transform` re-applies them.
- `TransformableRecordWrapper` compares each parameter's declared type, which
  may be parameterized, with the erased `Class` a method returns. A component
  such as `List<String> tags` therefore gets no getter, and every `transform`
  then fails with a `NullPointerException`.

## Model

| member | source | states |
|---|---|---|
| `Records.Erasure` | src/main/java/com/sikina/recordtransformer/TransformableRecordWrapper.java:27 | The `Class` that `getReturnType` reports for a declared type. It is always a plain class. A plain class is its own erasure, and a parameterized type or a type variable erases to its raw class or bound. |
| `Records.Params` | src/main/java/com/sikina/recordtransformer/RecordTransformer.java:111-113 | The canonical constructor takes one parameter per component, in component order, named after the component. |
| `Records.Accessors` | src/main/java/com/sikina/recordtransformer/RecordTransformer.java:33-34 | `getRecordComponents().map(getAccessor)`: one accessor per component, in order. |
| `Records.Invoke` | src/main/java/com/sikina/recordtransformer/RecordTransformer.java:44 | `Method.invoke` with no arguments. A call with arguments, or one whose target lacks the field read, fails with `IllegalArgumentException`. A throwing body fails with `InvocationTargetException` carrying its cause. Otherwise the call returns the field read or the constant returned. |
| `Records.PublicMethods` | src/main/java/com/sikina/recordtransformer/TransformableRecordWrapper.java:25 | `getMethods` of a record class: every component accessor, in component order, followed by the extra public methods, and nothing else. |
| `Engine.WrapGetterFailure` | src/main/java/com/sikina/recordtransformer/RecordTransformer.java:41-48 | The getter closure wraps a `ReflectiveOperationException` in the snapshot's own exception, keeping the cause. An `IllegalArgumentException` is not one, so it escapes unwrapped. |
| `Engine.Read` | src/main/java/com/sikina/recordtransformer/RecordTransformer.java:140-144 | `getValueFromCurrent`: a key with no getter is a `NullPointerException`. Otherwise the result is the getter applied to the current record, with a failure passed through the closure's wrapping. |
| `Engine.ReadsInstalledAccessor` | src/main/java/com/sikina/recordtransformer/RecordTransformer.java:140-144 | With the implicit accessors installed, reading a parameter gives the current record's value of that field. |
| `Engine.Pick` | src/main/java/com/sikina/recordtransformer/RecordTransformer.java:115 | `getOrDefault`: the pending update when the key has one, and the current value otherwise. |
| `Engine.PickAfterPut` | src/main/java/com/sikina/recordtransformer/RecordTransformer.java:98-115 | After `put(key, v)`, `getOrDefault` gives `v` for that key, and every other key gives what it gave before. |
| `Engine.Assemble` | src/main/java/com/sikina/recordtransformer/RecordTransformer.java:112-116 | The argument stream succeeds exactly when every parameter's getter succeeds. The arguments are then, position by position, the pending update if present and otherwise the getter's value. On failure the error is that of the first getter that failed. |
| `Engine.Put` | src/main/java/com/sikina/recordtransformer/RecordTransformer.java:98 | `updates.put`: the key now maps to the value, every other key keeps its value, and the record and getters are untouched. |
| `Engine.ToMap` | src/main/java/com/sikina/recordtransformer/RecordTransformer.java:35-38 | `Collectors.toMap` succeeds exactly when no key repeats, and the map then holds every pair. Otherwise it raises `IllegalStateException` naming a key that occurs twice. |
| `Engine.MergedFromCurrent` | src/main/java/com/sikina/recordtransformer/RecordTransformer.java:140-144 | With the implicit accessors installed, no getter fails. The arguments are then the record's values with the pending updates laid over them. |
| `PartialTransformation.As` | src/main/java/com/sikina/recordtransformer/PartialTransformation.java:30-33 | `as(value)` puts the bound key into the owning transformer's updates, overwriting any earlier value, and returns that transformer. |
| `RecordTransformer.GetterTableOf` | src/main/java/com/sikina/recordtransformer/RecordTransformer.java:33-38 | The getter table is built exactly when component names are distinct. Its keys are the parameter names, and each maps to its component's accessor. |
| `RecordTransformer.New` | src/main/java/com/sikina/recordtransformer/RecordTransformer.java:29-39 | A new transformer holds the given record and no updates. Its getters are the accessors, keyed by exactly the parameter names. |
| `RecordTransformer.RecShowsUpdatesOnlyAfterTransform` | src/main/java/com/sikina/recordtransformer/RecordTransformer.java:51-60 | `rec()` does not reflect a queued update until `transform`. After a successful `transform` it is the record rebuilt with the update. After a failed one it is the old record. |
| `RecordTransformer.WithTypeUnsafe` | src/main/java/com/sikina/recordtransformer/RecordTransformer.java:97-100 | Queues one update with no type check. `rec()` is unchanged, the last write of a key wins, and other keys are kept. |
| `RecordTransformer.With` | src/main/java/com/sikina/recordtransformer/RecordTransformer.java:70-82 | `with(getter)` binds the getter's field name to this transformer and queues nothing. |
| `RecordTransformer.WithAsIsWithTypeUnsafe` | src/main/java/com/sikina/recordtransformer/RecordTransformer.java:78 | `with(getter).as(v)` queues exactly what `withTypeUnsafe(field, v)` queues. |
| `RecordTransformer.Transform` | src/main/java/com/sikina/recordtransformer/RecordTransformer.java:109-125 | The transform is corrected to wrap every constructor rejection (see Findings). A failing getter throws before anything changes. Once the getters have run, the updates are emptied whatever follows. The record is replaced by the merged arguments exactly when the constructor accepts, and otherwise `ConstructorException` is raised. |
| `RecordTransformer.TransformAsWritten` | src/main/java/com/sikina/recordtransformer/RecordTransformer.java:119-123 | The transform as written. The resulting state and the success are the same as in `Transform`. The only difference is that an argument type mismatch escapes as a bare `IllegalArgumentException`. |
| `RecordTransformer.MismatchEscapesUnwrapped` | src/main/java/com/sikina/recordtransformer/RecordTransformer.java:106-123 | When the constructor refuses an argument's type, the code as written throws `IllegalArgumentException`, where the documentation promises `ConstructorException`. |
| `RecordTransformer.NoUpdatesIsIdentity` | src/main/java/com/sikina/recordtransformer/RecordTransformer.java:112-116 | With nothing queued, `transform` rebuilds a record equal to the current one and leaves the transformer as it was. |
| `RecordTransformer.TransformOverlaysUpdates` | src/main/java/com/sikina/recordtransformer/RecordTransformer.java:114-117 | Each rebuilt field is its update if queued and its old value otherwise. Success depends only on the constructor accepting those values, and the updates end up empty. |
| `RecordTransformer.UntouchedFieldsPreserved` | src/test/java/com/sikina/recordtransformer/RecordTransformerTest.java:89-96 | Updating one field alone changes that field to the new value and keeps every other field. |
| `RecordTransformer.ConsecutiveTransformsAgree` | src/main/java/com/sikina/recordtransformer/RecordTransformer.java:117 | Because the updates are consumed, a second `transform` right after a successful one reproduces the same record. |
| `RecordTransformer.LastWriteWins` | src/main/java/com/sikina/recordtransformer/RecordTransformer.java:97-98 | Queuing one field twice before `transform` leaves it with the later value. |
| `RecordTransformer.ThrowingAccessorAborts` | src/main/java/com/sikina/recordtransformer/RecordTransformer.java:41-48 | A throwing accessor raises `GetterException` and leaves both the record and the updates unchanged, even when that field has an update queued. |
| `RecordLens.New` | src/main/java/com/sikina/recordtransformer/RecordLens.java:33-43 | The lens gets the same getter table as `RecordTransformer`, holds the record, and has no updates. |
| `RecordLens.WithTypeUnsafe` | src/main/java/com/sikina/recordtransformer/RecordLens.java:101-104 | Queues one update: the last write wins, other keys are kept, and the record is untouched. |
| `RecordLens.With` | src/main/java/com/sikina/recordtransformer/RecordLens.java:74-86 | `with(getter)` binds the field name to this lens and queues nothing. |
| `RecordLens.WithAsIsWithTypeUnsafe` | src/main/java/com/sikina/recordtransformer/RecordLens.java:82 | `with(getter).as(v)` queues exactly what `withTypeUnsafe(field, v)` queues. |
| `RecordLens.Transform` | src/main/java/com/sikina/recordtransformer/RecordLens.java:106-121 | This is the corrected transform. The updates are never touched, and a failed transform leaves the lens exactly as it was. The record is replaced by the merged arguments exactly when the constructor accepts. A throwing accessor raises `GetterMappingException`, and a rejection raises the lens's own `exceptions.ConstructorException` (`LensConstructorException`). |
| `RecordLens.TransformAsWritten` | src/main/java/com/sikina/recordtransformer/RecordLens.java:115-119 | The transform as written, with the same state and success as `Transform`. Only a type mismatch is reported differently, as a bare `IllegalArgumentException`. |
| `RecordLens.MismatchEscapesUnwrapped` | src/main/java/com/sikina/recordtransformer/RecordLens.java:114-119 | A constructor that refuses an argument's type gives `IllegalArgumentException` as written and the lens's `exceptions.ConstructorException` once corrected. |
| `RecordLens.TransformOverlaysUpdates` | src/main/java/com/sikina/recordtransformer/RecordLens.java:109-113 | Each rebuilt field is its update if queued and its old value otherwise. Success means the constructor accepted those values. |
| `RecordLens.UpdatesStayInForce` | src/main/java/com/sikina/recordtransformer/RecordLens.java:112-116 | After a successful `transform`, the updates are still pending and every updated field holds its queued value. |
| `RecordLens.ConsecutiveTransformsAgree` | src/main/java/com/sikina/recordtransformer/RecordLens.java:106-121 | A second `transform` right after a successful one re-applies the same updates and yields the same lens. |
| `RecordLens.LastWriteWins` | src/main/java/com/sikina/recordtransformer/RecordLens.java:101-104 | Queuing one field twice before `transform` leaves it with the later value. |
| `RecordLens.ThrowingAccessorRaisesMappingException` | src/main/java/com/sikina/recordtransformer/RecordLens.java:45-53 | A throwing accessor raises `GetterMappingException` and leaves the lens as it was. |
| `TransformableRecordWrapper.ParamEntries` | src/main/java/com/sikina/recordtransformer/TransformableRecordWrapper.java:19-24 | The constructor parameters with their declared types, in order. |
| `TransformableRecordWrapper.Passes` | src/main/java/com/sikina/recordtransformer/TransformableRecordWrapper.java:26-27 | A method passes only when it is named after a parameter. That parameter's declared type must be a plain class, since a `Class` return type can never equal a parameterized type or a type variable. |
| `TransformableRecordWrapper.Filter` | src/main/java/com/sikina/recordtransformer/TransformableRecordWrapper.java:25-27 | A method survives the two filters exactly when it is a public method named after a parameter whose erased return type equals that parameter's declared type. |
| `TransformableRecordWrapper.ParamMapOf` | src/main/java/com/sikina/recordtransformer/TransformableRecordWrapper.java:19-27 | For distinct component names, the parameter map is built, and passing the filters is the same as being named after a component whose type equals the erased return type. |
| `TransformableRecordWrapper.TableOfMethods` | src/main/java/com/sikina/recordtransformer/TransformableRecordWrapper.java:28-31 | The table collected from the filtered methods maps exactly their names to those methods. |
| `TransformableRecordWrapper.New` | src/main/java/com/sikina/recordtransformer/TransformableRecordWrapper.java:17-32 | A new wrapper holds the instance and no updates. Its getters are exactly the public methods that pass the filters, each under its own name. Any failure is an `IllegalStateException` from `toMap`. |
| `TransformableRecordWrapper.With` | src/main/java/com/sikina/recordtransformer/TransformableRecordWrapper.java:44-47 | `with(getter, value)` queues one update: the last write wins and `instance()` is unchanged. |
| `TransformableRecordWrapper.Transform` | src/main/java/com/sikina/recordtransformer/TransformableRecordWrapper.java:49-59 | The updates are never emptied, and a failed transform leaves the wrapper as it was. A failing getter raises `RuntimeException`, and a missing getter raises `NullPointerException`. Constructor failures escape raw, as `IllegalArgumentException` or `InvocationTargetException`. |
| `TransformableRecordWrapper.InstanceShowsUpdatesOnlyAfterTransform` | src/main/java/com/sikina/recordtransformer/TransformableRecordWrapper.java:74-76 | `instance()` does not reflect a queued update until `transform`. After a successful `transform` it is the record rebuilt with the update. After a failed one it is the old record. |
| `TransformableRecordWrapper.AgreesWithLens` | src/main/java/com/sikina/recordtransformer/TransformableRecordWrapper.java:52-57 | Except for how errors are reported, the wrapper's `transform` succeeds and ends in the same state as `RecordLens`'s. |
| `TransformableRecordWrapper.TransformOverlaysUpdates` | src/main/java/com/sikina/recordtransformer/TransformableRecordWrapper.java:52-57 | With the accessors installed, the rebuilt fields are the updates laid over the old values, and the updates stay. |
| `TransformableRecordWrapper.PlainRecordGetsAccessors` | src/main/java/com/sikina/recordtransformer/TransformableRecordWrapper.java:25-31 | When no component type is generic and no extra method passes the filters, the table is exactly the component accessors, keyed by parameter name. |
| `TransformableRecordWrapper.GenericComponentHasNoGetter` | src/main/java/com/sikina/recordtransformer/TransformableRecordWrapper.java:27 | A component whose declared type is parameterized or a type variable never gets a getter. |
| `TransformableRecordWrapper.AllGenericTableEmpty` | src/main/java/com/sikina/recordtransformer/TransformableRecordWrapper.java:25-31 | A record whose components are all generic gets an empty getter table. |
| `TransformableRecordWrapper.MissingGetterFailsTransform` | src/main/java/com/sikina/recordtransformer/TransformableRecordWrapper.java:68-72 | A parameter with no getter makes every `transform` throw, even when that field is updated, and the wrapper is left as it was. |
| `CachedRecordTransformer.InitGetters` | src/main/java/com/sikina/recordtransformer/CachedRecordTransformer.java:25-33 | A class name already in the cache returns its entry, and the cache is unchanged. An absent name is filled with the class's getter table. Entries for other names are untouched. |
| `CachedRecordTransformer.New` | src/main/java/com/sikina/recordtransformer/CachedRecordTransformer.java:18-23 | A cached transformer holds the record and no updates, and its getters are the cache entry for the class. From a coherent cache it equals the uncached transformer. |
| `CachedRecordTransformer.InitGettersKeepsCoherent` | src/main/java/com/sikina/recordtransformer/CachedRecordTransformer.java:26-28 | A lookup never makes any class's entry differ from that class's getter table. |
| `CachedRecordTransformer.CacheHitTransformsIdentically` | src/main/java/com/sikina/recordtransformer/CachedRecordTransformer.java:26-32 | A second construction for the same class hits the cache and leaves it unchanged. It yields the uncached transformer, and for an equal record it transforms identically to the first under any constructor. |
| `Scenarios.TransformerTransformsRecord` | src/test/java/com/sikina/recordtransformer/RecordTransformerTest.java:89-103 | `ExampleRec(1, "foo")` becomes `(2, "foo")` after `with(a).as(2)`, then `(2, "bar")` after `withTypeUnsafe("b", "bar")`. No updates are left. |
| `Scenarios.LensTransformsRecord` | src/test/java/com/sikina/recordtransformer/RecordLensTest.java:81-95 | The lens produces the same two records, and both updates are still pending at the end. |
| `Scenarios.ThrowingAccessorExplodes` | src/test/java/com/sikina/recordtransformer/RecordTransformerTest.java:175-179 | For `ExplodingRecord`, `transform` raises `GetterException` in the transformer and `GetterMappingException` in the lens, whatever the constructor does. |
| `Scenarios.ThrowingConstructorExplodes` | src/test/java/com/sikina/recordtransformer/RecordTransformerTest.java:181-189 | Queuing `explode = true` gives `ConstructorException`. The transformer is left exactly as it was built: the old record and no updates. |
| `Scenarios.MismatchExample` | src/main/java/com/sikina/recordtransformer/RecordTransformer.java:119-123 | Queuing a string for the `int` field `a` gives `IllegalArgumentException` as written and the snapshot's own `ConstructorException` once corrected, in both the transformer and the lens. |
| `Scenarios.WrapperSkipsExtraMethods` | src/main/java/com/sikina/recordtransformer/ExampleRecord.java:3-15 | The wrapper's table for `ExampleRecord` has exactly the keys `a`, `b` and `c`, each mapped to its accessor. `d()` and `someMethod()` are left out. |
| `Scenarios.WrapperExample` | src/main/java/com/sikina/recordtransformer/Example.java:11-34 | `(1, "foo", 5.0)` becomes `(2, "bar", 5.0)`, then `(3, "bar", 5.0)`. |
| `Scenarios.WrapperFailsOnGenericComponent` | src/main/java/com/sikina/recordtransformer/TransformableRecordWrapper.java:27 | A record with a `List<String>` component builds an empty table, so `transform` throws `NullPointerException` even with that field updated. |
| `Scenarios.CachedTransformsRecord` | src/test/java/com/sikina/recordtransformer/CachedRecordTransformerTest.java:10-27 | The first cached transformer fills the cache with one entry, and the second hits it without changing it. Both turn `ExampleRec(1, "foo")` into `(2, "foo")` with no updates left. |

## Left out

- Resolving a getter reference to a field name (`writeReplace`, `SerializedLambda`, and `Fun.toMethod` in the wrapper) is reflection on lambda classes. A `Handle` carries the resolved name instead, and the `GetterException`/`GetterMappingException` that `with` throws when resolution fails is not modelled.
- The lookup of the canonical constructor (`getDeclaredConstructor`) and its `NoSuchMethodException` are not modelled, because a Java record always has a canonical constructor. Instead, the constructor is an abstract argument of `transform`.
- `IllegalAccessException` and `InstantiationException` are left out. They need a non-public record or an abstract class, and the model has no accessibility.
- A canonical constructor that rewrites its arguments (a compact constructor that normalises values) is outside the model: an accepting constructor yields a record holding exactly the arguments. Java's boxing and widening of arguments is inside the abstract constructor.
- The public methods every record inherits from `Object` are not listed in a record class. No component may be named `hashCode`, `toString` or `getClass` (section 8.10.1 of the Java Language Specification), so those never pass the name filter. But `equals(Object)` is left out too: for a component `boolean equals`, Java's `getMethods` also reports `equals(Object)`, which passes both filters, so `toMap` throws `IllegalStateException`, while the model builds the table. A class that needs it must list it among its extra methods.
- Generic array types such as `List<String>[]` have no `JType` case. Like a parameterized type, such a type never equals the erased `Class` a method returns, so a component of that type would also get no getter from `TransformableRecordWrapper`.
- The order in which `Class.getMethods` reports methods is unspecified. The model fixes accessors first, then the extra methods. Whether the table is built does not depend on that order.
- Concurrency is left out: the `ConcurrentHashMap`, the `synchronized` `initGetters`, and concurrent use of one transformer. The cache is a value passed from one construction to the next, so the static field becomes an explicit parameter.
- `CachedRecordTransformer` as it stands does not compile. It assigns the final `getters` field of its superclass and calls a `createGetters` that does not exist. The model uses the evident intent: the cached table is the table `RecordTransformer` builds for the class.
- Exception messages, the `Accessor` and `Put` interfaces as Java types, printing in the examples, and the benchmarks are left out.
- PartialTransformation.As: a `Partial` holds a copy of the transformer taken at `with`, whereas Java keeps the live transformer and its `updates::put`. The copy is exact only for an immediate `with(..).as(..)` chain, the only use the javadoc of `PartialTransformation` (lines 6-9) allows. An update queued on the transformer between `with` and `as` would be lost in the model but kept in Java.
- Records.Invoke: classes are known by their structure, not by identity. Two record classes with the same binary name from different class loaders share one cache entry. Java's `invoke` then rejects the foreign accessor with `IllegalArgumentException`, while the model reads the field. Class-loader identity is not modelled.
- `RecordLens.with` as it stands does not compile: it passes the lens to a `PartialTransformation` constructor that expects a `RecordTransformer` (RecordLens.java line 82), and `as` returns a `RecordTransformer`. `RecordLens.With` and `As` follow the evident intent, giving back the lens.
- `Example.java` (lines 16-17 and 25) calls `with("a", 2)` on the wrapper, whose only `with` takes a getter reference (`Fun.With0ParamsAndVoid`, TransformableRecordWrapper.java line 44). This does not compile either. `Scenarios.WrapperExample` follows the evident intent: one update per field name.
- TransformableRecordWrapper.New: when construction fails, the contract says only that the error is an `IllegalStateException` from `toMap`. It does not say exactly which inputs fail: a repeated parameter name, or two passing methods with one name.
- TransformableRecordWrapper.MissingGetterFailsTransform: states that the transform throws and leaves the wrapper unchanged, not which exception. `TransformableRecordWrapper.Transform` names it: that of the first failing or missing getter.

## Findings

| source | as written | input that shows it | evidently intended | confidence | as-written member | corrected member |
|---|---|---|---|---|---|---|
| src/main/java/com/sikina/recordtransformer/RecordTransformer.java:119-123 | `newInstance` is called in a `try` whose `catch` lists only `InstantiationException`, `IllegalAccessException` and `InvocationTargetException`. The unchecked `IllegalArgumentException` that `newInstance` throws for an argument of the wrong type escapes unwrapped. | `new RecordTransformer<>(new ExampleRec(1, "foo")).withTypeUnsafe("a", "two").transform()` | `ConstructorException`, as the javadoc at lines 106-107 promises for a type mismatch | not executed; follows from the `Constructor.newInstance` contract | `RecordTransformer.TransformAsWritten` (shown by `RecordTransformer.MismatchEscapesUnwrapped` and `Scenarios.MismatchExample`) | `RecordTransformer.Transform` |
| src/main/java/com/sikina/recordtransformer/RecordLens.java:115-119 | The same `catch` list: a type-mismatched update escapes as a bare `IllegalArgumentException`. | `new RecordLens<>(new ExampleRec(1, "foo")).withTypeUnsafe("a", "two").transform()` | `ConstructorException` from the lens's own exceptions package | not executed; follows from the `Constructor.newInstance` contract | `RecordLens.TransformAsWritten` (shown by `RecordLens.MismatchEscapesUnwrapped` and `Scenarios.MismatchExample`) | `RecordLens.Transform` |
