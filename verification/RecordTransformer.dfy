/**
  `RecordTransformer`: wraps one record, queues field updates, and rebuilds the
  record through its canonical constructor. This snapshot empties the pending
  updates on every `transform` that gets past the getters, before the
  constructor runs, and reports a throwing accessor as `GetterException`.
 */
module RecordTransformer {
  import opened Wrappers
  import opened Records
  import opened Engine
  import opened PartialTransformation

  /** The pairs the constructor collects into the getter table: each
      component's accessor, keyed by the accessor's name. */
  function AccessorEntries(cls: RecordClass): (es: seq<(string, Method)>)
    ensures |es| == |cls.components|
    ensures forall i :: 0 <= i < |es| ==> es[i] == (cls.components[i].name, Accessor(cls, i))
  {
    seq(|cls.components|, i requires 0 <= i < |cls.components| => (cls.components[i].name, Accessor(cls, i)))
  }

  lemma AccessorEntriesDistinct(cls: RecordClass)
    ensures DistinctKeys(AccessorEntries(cls)) <==> DistinctNames(cls)
  {
    var es := AccessorEntries(cls);
    assert forall i :: 0 <= i < |es| ==> es[i].0 == cls.components[i].name;
  }

  /** The getter table of a record class: every component name mapped to that
      component's accessor, or `IllegalStateException` if two components shared
      a name (which the Java compiler rules out). */
  function GetterTableOf(cls: RecordClass): (r: Result<GetterTable, Error>)
    ensures r.Success? <==> DistinctNames(cls)
    ensures r.Success? ==> forall k :: k in r.value <==> k in Params(cls)
    ensures r.Success? ==> forall i :: 0 <= i < |cls.components| ==>
      cls.components[i].name in r.value && r.value[cls.components[i].name] == Accessor(cls, i)
  {
    AccessorEntriesDistinct(cls);
    var es := AccessorEntries(cls);
    var r := ToMap(es);
    assert r.Success? ==> forall k :: k in r.value ==> k in Params(cls) by {
      if r.Success? {
        forall k | k in r.value ensures k in Params(cls) {
          var i :| 0 <= i < |es| && es[i].0 == k;
          assert Params(cls)[i] == k;
        }
      }
    }
    r
  }

  /** `new RecordTransformer(rec)`: the given record, the getter table of its
      class, and no pending updates. */
  function New(rec: Record): (r: Result<State, Error>)
    ensures r.Success? <==> DistinctNames(rec.cls)
    ensures r.Success? ==> r.value.rec == rec && r.value.updates == map[]
    ensures r.Success? ==> AccessorsInstalled(r.value)
    ensures r.Success? ==> forall k :: k in r.value.getters <==> k in Params(rec.cls)
  {
    var table :- GetterTableOf(rec.cls);
    Success(State(rec, table, map[]))
  }

  /** `rec()`: the current record, which queued updates do not affect. */
  function Rec(t: State): Record
  {
    t.rec
  }

  /** `withTypeUnsafe(key, value)`: queue one update under a bare field name,
      with no type check; the record stays as it is until `transform`, and the
      same transformer comes back for chaining. The last write of a key wins. */
  function WithTypeUnsafe(t: State, key: string, value: Value): (r: State)
    ensures Rec(r) == Rec(t) && r.getters == t.getters
    ensures r.updates.Keys == t.updates.Keys + {key}
    ensures r.updates[key] == value
    ensures forall k :: k in t.updates && k != key ==> r.updates[k] == t.updates[k]
  {
    Put(t, key, value)
  }

  /** `with(getter)`: bind the handle's field name to this transformer. Nothing
      is queued until `as` is called. */
  function With(t: State, h: Handle): (p: Partial)
    ensures p.wrapper == t && p.key == h.field
  {
    Partial(t, h.field)
  }

  /** The typed route `with(getter).as(value)` queues exactly what
      `withTypeUnsafe` queues under the getter's field name. */
  lemma WithAsIsWithTypeUnsafe(t: State, h: Handle, value: Value)
    ensures As(With(t, h), value) == WithTypeUnsafe(t, h.field, value)
  {
  }

  /** All getters succeed on the current record. */
  predicate GettersSucceed(t: State)
  {
    ReadsSucceed(t, Params(t.rec.cls), AsGetterException)
  }

  /** The argument list handed to the canonical constructor. */
  function Args(t: State): seq<Value>
    requires GettersSucceed(t)
  {
    Merged(t, Params(t.rec.cls), AsGetterException)
  }

  /** `transform()`, with every constructor rejection reported as
      `ConstructorException` (see `TransformAsWritten` for the code as it
      stands). A throwing getter aborts before anything changes; once the
      getters have run, the pending updates are emptied whatever the
      constructor then does; the record is replaced only if it accepts. */
  function Transform(t: State, ctor: Constructor): (r: Outcome)
    ensures r.state.getters == t.getters
    ensures r.Threw? ==> r.state.rec == t.rec
    ensures !GettersSucceed(t) ==> r.Threw? && r.state == t
    ensures !GettersSucceed(t) ==> FirstReadFailure(t, Params(t.rec.cls), AsGetterException, r.error)
    ensures GettersSucceed(t) ==> r.state.updates == map[]
    ensures r.Done? <==> GettersSucceed(t) && ctor(Args(t)) == Accepted
    ensures r.Done? ==> r.state.rec == Record(t.rec.cls, Args(t))
    ensures GettersSucceed(t) && ctor(Args(t)).Rejected? ==>
      r.Threw? && r.error == ConstructorException(ctor(Args(t)).why)
  {
    match Assemble(t, Params(t.rec.cls), AsGetterException)
    case Failure(e) => Threw(e, t)
    case Success(args) =>
      var cleared := t.(updates := map[]);
      match ctor(args)
      case Accepted => Done(cleared.(rec := Record(t.rec.cls, args)))
      case Rejected(why) => Threw(ConstructorException(why), cleared)
  }

  /** `transform()` exactly as written: `Constructor.newInstance` reports an
      argument of the wrong type as `IllegalArgumentException`, which the catch
      clause does not list, so it escapes unwrapped. Only the error differs
      from `Transform`. */
  function TransformAsWritten(t: State, ctor: Constructor): (r: Outcome)
    ensures r.state == Transform(t, ctor).state
    ensures r.Done? <==> Transform(t, ctor).Done?
    ensures r.Threw? && r.error != Transform(t, ctor).error ==>
      r.error == IllegalArgumentException && Transform(t, ctor).error == ConstructorException(ArgumentMismatch)
  {
    match Assemble(t, Params(t.rec.cls), AsGetterException)
    case Failure(e) => Threw(e, t)
    case Success(args) =>
      var cleared := t.(updates := map[]);
      match ctor(args)
      case Accepted => Done(cleared.(rec := Record(t.rec.cls, args)))
      case Rejected(ArgumentMismatch) => Threw(IllegalArgumentException, cleared)
      case Rejected(BodyThrew(c)) => Threw(ConstructorException(BodyThrew(c)), cleared)
  }

  /** A constructor that refuses an argument's type makes the code as written
      raise a bare `IllegalArgumentException`, where the documented behaviour is
      a `ConstructorException`. */
  lemma MismatchEscapesUnwrapped(t: State, ctor: Constructor)
    requires GettersSucceed(t) && ctor(Args(t)) == Rejected(ArgumentMismatch)
    ensures TransformAsWritten(t, ctor) == Threw(IllegalArgumentException, t.(updates := map[]))
    ensures Transform(t, ctor) == Threw(ConstructorException(ArgumentMismatch), t.(updates := map[]))
  {
  }

  /** With no pending updates, every argument falls back to its getter, so
      `transform` rebuilds a record equal to the current one. */
  lemma NoUpdatesIsIdentity(t: State, ctor: Constructor)
    requires WellFormed(t.rec) && ImplicitAccessors(t.rec.cls) && AccessorsInstalled(t)
    requires t.updates == map[]
    requires ctor(t.rec.values) == Accepted
    ensures Transform(t, ctor) == Done(t)
  {
    MergedFromCurrent(t, AsGetterException);
    assert Args(t) == t.rec.values;
  }

  /** Each rebuilt field is its pending update if it has one and its current
      value otherwise; fields without an update are preserved. */
  lemma TransformOverlaysUpdates(t: State, ctor: Constructor)
    requires WellFormed(t.rec) && ImplicitAccessors(t.rec.cls) && AccessorsInstalled(t)
    ensures Transform(t, ctor).Done? <==> ctor(Overlay(t.rec, t.updates)) == Accepted
    ensures Transform(t, ctor).Done? ==> Transform(t, ctor).state.rec == Record(t.rec.cls, Overlay(t.rec, t.updates))
    ensures Transform(t, ctor).state.updates == map[]
  {
    MergedFromCurrent(t, AsGetterException);
  }

  /** `rec()` before and after `transform`: a queued update is not reflected
      until `transform`; a successful one shows the record rebuilt with it, and
      a failed one the record as it was. */
  lemma RecShowsUpdatesOnlyAfterTransform(t: State, key: string, value: Value, ctor: Constructor)
    requires WellFormed(t.rec) && ImplicitAccessors(t.rec.cls) && AccessorsInstalled(t)
    ensures Rec(WithTypeUnsafe(t, key, value)) == Rec(t)
    ensures Transform(WithTypeUnsafe(t, key, value), ctor).Done? ==>
      Rec(Transform(WithTypeUnsafe(t, key, value), ctor).state) == Record(t.rec.cls, Overlay(t.rec, t.updates[key := value]))
    ensures Transform(WithTypeUnsafe(t, key, value), ctor).Threw? ==>
      Rec(Transform(WithTypeUnsafe(t, key, value), ctor).state) == Rec(t)
  {
    var t1 := WithTypeUnsafe(t, key, value);
    assert t1.updates == t.updates[key := value];
    TransformOverlaysUpdates(t1, ctor);
  }

  /** Updating one field alone: if the rebuild succeeds, that field holds the
      new value and every other field keeps its old one. */
  lemma UntouchedFieldsPreserved(t: State, ctor: Constructor, i: nat, v: Value)
    requires WellFormed(t.rec) && ImplicitAccessors(t.rec.cls) && AccessorsInstalled(t)
    requires t.updates == map[] && i < |t.rec.cls.components|
    requires Transform(WithTypeUnsafe(t, t.rec.cls.components[i].name, v), ctor).Done?
    ensures Transform(WithTypeUnsafe(t, t.rec.cls.components[i].name, v), ctor).state.rec.values[i] == v
    ensures forall j :: 0 <= j < |t.rec.values| && j != i ==>
      Transform(WithTypeUnsafe(t, t.rec.cls.components[i].name, v), ctor).state.rec.values[j] == t.rec.values[j]
  {
    var t1 := WithTypeUnsafe(t, t.rec.cls.components[i].name, v);
    TransformOverlaysUpdates(t1, ctor);
    forall j | 0 <= j < |t.rec.values| && j != i
      ensures t.rec.cls.components[j].name !in t1.updates
    {
      assert t.rec.cls.components[j].name != t.rec.cls.components[i].name;
    }
  }

  /** The updates are consumed by a `transform`, so a second one right after
      reproduces the same record. */
  lemma ConsecutiveTransformsAgree(t: State, ctor: Constructor)
    requires WellFormed(t.rec) && ImplicitAccessors(t.rec.cls) && AccessorsInstalled(t)
    requires Transform(t, ctor).Done?
    ensures Transform(Transform(t, ctor).state, ctor) == Done(Transform(t, ctor).state)
  {
    MergedFromCurrent(t, AsGetterException);
    var t1 := Transform(t, ctor).state;
    assert t1.rec.cls == t.rec.cls;
    NoUpdatesIsIdentity(t1, ctor);
  }

  /** Queuing the same key twice before one `transform` keeps only the later value. */
  lemma LastWriteWins(t: State, ctor: Constructor, i: nat, x: Value, y: Value)
    requires WellFormed(t.rec) && ImplicitAccessors(t.rec.cls) && AccessorsInstalled(t)
    requires i < |t.rec.cls.components|
    requires Transform(WithTypeUnsafe(WithTypeUnsafe(t, t.rec.cls.components[i].name, x), t.rec.cls.components[i].name, y), ctor).Done?
    ensures Transform(WithTypeUnsafe(WithTypeUnsafe(t, t.rec.cls.components[i].name, x), t.rec.cls.components[i].name, y), ctor).state.rec.values[i] == y
  {
    var t2 := WithTypeUnsafe(WithTypeUnsafe(t, t.rec.cls.components[i].name, x), t.rec.cls.components[i].name, y);
    TransformOverlaysUpdates(t2, ctor);
  }

  /** A throwing accessor raises `GetterException` before the updates are
      emptied, so neither the record nor the updates change. The getter runs
      whatever the pending updates are, even one for that very field. */
  lemma ThrowingAccessorAborts(t: State, ctor: Constructor, i: nat, c: Cause)
    requires WellFormed(t.rec) && AccessorsInstalled(t)
    requires i < |t.rec.cls.components|
    requires t.rec.cls.components[i].accessor == Throws(c)
    requires forall j :: 0 <= j < i ==> t.rec.cls.components[j].accessor == ReadsField(j)
    ensures Transform(t, ctor) == Threw(GetterException(c), t)
  {
    var names := Params(t.rec.cls);
    assert Read(t, names[i], AsGetterException) == Failure(GetterException(c)) by {
      assert t.getters[names[i]] == Accessor(t.rec.cls, i);
    }
    forall j | 0 <= j < i
      ensures Read(t, names[j], AsGetterException).Success?
    {
      assert t.getters[names[j]] == Accessor(t.rec.cls, j);
    }
  }
}
