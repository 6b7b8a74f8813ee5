/**
  `RecordLens`: the snapshot of the transformer that never empties its pending
  updates, so everything queued stays in force for every later `transform`. A
  throwing accessor is reported as `GetterMappingException`.
 */
module RecordLens {
  import opened Wrappers
  import opened Records
  import opened Engine
  import opened PartialTransformation
  import RecordTransformer

  /** `new RecordLens(rec)`: the getter table is built exactly as for
      `RecordTransformer`. */
  function New(rec: Record): (r: Result<State, Error>)
    ensures r.Success? <==> DistinctNames(rec.cls)
    ensures r.Success? ==> r.value.rec == rec && r.value.updates == map[]
    ensures r.Success? ==> AccessorsInstalled(r.value)
    ensures r.Success? ==> forall k :: k in r.value.getters <==> k in Params(rec.cls)
  {
    var table :- RecordTransformer.GetterTableOf(rec.cls);
    Success(State(rec, table, map[]))
  }

  /** `withTypeUnsafe(key, value)`: queue one update; the last write of a key
      wins and the current record is untouched. */
  function WithTypeUnsafe(t: State, key: string, value: Value): (r: State)
    ensures r.rec == t.rec && r.getters == t.getters
    ensures r.updates.Keys == t.updates.Keys + {key}
    ensures r.updates[key] == value
    ensures forall k :: k in t.updates && k != key ==> r.updates[k] == t.updates[k]
  {
    Put(t, key, value)
  }

  /** `with(getter)`: bind the handle's field name to this lens; only `as` writes. */
  function With(t: State, h: Handle): (p: Partial)
    ensures p.wrapper == t && p.key == h.field
  {
    Partial(t, h.field)
  }

  /** The typed route `with(getter).as(value)` queues exactly what
      `withTypeUnsafe` queues under the getter's field name. */
  lemma WithAsIsWithTypeUnsafe(t: State, h: Handle, value: Value)
    ensures As(With(t, h), value) == WithTypeUnsafe(t, h.field, value)
  {
  }

  predicate GettersSucceed(t: State)
  {
    ReadsSucceed(t, Params(t.rec.cls), AsGetterMappingException)
  }

  function Args(t: State): seq<Value>
    requires GettersSucceed(t)
  {
    Merged(t, Params(t.rec.cls), AsGetterMappingException)
  }

  /** `transform()`, with every constructor rejection reported as
      the lens's own `ConstructorException` (`LensConstructorException`; see
      `TransformAsWritten`). The pending updates
      are never touched; the record is replaced only if the constructor accepts
      the merged arguments. */
  function Transform(t: State, ctor: Constructor): (r: Outcome)
    ensures r.state.getters == t.getters && r.state.updates == t.updates
    ensures r.Threw? ==> r.state == t
    ensures !GettersSucceed(t) ==> r.Threw?
    ensures !GettersSucceed(t) ==> FirstReadFailure(t, Params(t.rec.cls), AsGetterMappingException, r.error)
    ensures r.Done? <==> GettersSucceed(t) && ctor(Args(t)) == Accepted
    ensures r.Done? ==> r.state.rec == Record(t.rec.cls, Args(t))
    ensures GettersSucceed(t) && ctor(Args(t)).Rejected? ==>
      r.Threw? && r.error == LensConstructorException(ctor(Args(t)).why)
  {
    match Assemble(t, Params(t.rec.cls), AsGetterMappingException)
    case Failure(e) => Threw(e, t)
    case Success(args) =>
      match ctor(args)
      case Accepted => Done(t.(rec := Record(t.rec.cls, args)))
      case Rejected(why) => Threw(LensConstructorException(why), t)
  }

  /** `transform()` exactly as written: an argument of the wrong type escapes
      as a bare `IllegalArgumentException`. Only the error differs from `Transform`. */
  function TransformAsWritten(t: State, ctor: Constructor): (r: Outcome)
    ensures r.state == Transform(t, ctor).state
    ensures r.Done? <==> Transform(t, ctor).Done?
    ensures r.Threw? && r.error != Transform(t, ctor).error ==>
      r.error == IllegalArgumentException && Transform(t, ctor).error == LensConstructorException(ArgumentMismatch)
  {
    match Assemble(t, Params(t.rec.cls), AsGetterMappingException)
    case Failure(e) => Threw(e, t)
    case Success(args) =>
      match ctor(args)
      case Accepted => Done(t.(rec := Record(t.rec.cls, args)))
      case Rejected(ArgumentMismatch) => Threw(IllegalArgumentException, t)
      case Rejected(BodyThrew(c)) => Threw(LensConstructorException(BodyThrew(c)), t)
  }

  /** The code as written raises a bare `IllegalArgumentException` for an
      argument of the wrong type; the corrected model raises `LensConstructorException`. */
  lemma MismatchEscapesUnwrapped(t: State, ctor: Constructor)
    requires GettersSucceed(t) && ctor(Args(t)) == Rejected(ArgumentMismatch)
    ensures TransformAsWritten(t, ctor) == Threw(IllegalArgumentException, t)
    ensures Transform(t, ctor) == Threw(LensConstructorException(ArgumentMismatch), t)
  {
  }

  /** Each rebuilt field is its pending update if it has one and its current
      value otherwise. */
  lemma TransformOverlaysUpdates(t: State, ctor: Constructor)
    requires WellFormed(t.rec) && ImplicitAccessors(t.rec.cls) && AccessorsInstalled(t)
    ensures Transform(t, ctor).Done? <==> ctor(Overlay(t.rec, t.updates)) == Accepted
    ensures Transform(t, ctor).Done? ==> Transform(t, ctor).state.rec == Record(t.rec.cls, Overlay(t.rec, t.updates))
  {
    MergedFromCurrent(t, AsGetterMappingException);
  }

  lemma OverlayTwice(rec: Record, updates: Updates)
    requires WellFormed(rec)
    ensures Overlay(Record(rec.cls, Overlay(rec, updates)), updates) == Overlay(rec, updates)
  {
  }

  /** An update queued once is applied again by every later `transform`: after
      a successful one, the updated fields hold their queued values and the
      updates are still pending. */
  lemma UpdatesStayInForce(t: State, ctor: Constructor)
    requires WellFormed(t.rec) && ImplicitAccessors(t.rec.cls) && AccessorsInstalled(t)
    requires Transform(t, ctor).Done?
    ensures Transform(t, ctor).state.updates == t.updates
    ensures forall i :: 0 <= i < |t.rec.cls.components| && t.rec.cls.components[i].name in t.updates ==>
      Transform(t, ctor).state.rec.values[i] == t.updates[t.rec.cls.components[i].name]
  {
    TransformOverlaysUpdates(t, ctor);
  }

  /** Two consecutive transforms with no queuing in between produce equal
      records: the second re-applies the same updates over values that
      already hold them. */
  lemma ConsecutiveTransformsAgree(t: State, ctor: Constructor)
    requires WellFormed(t.rec) && ImplicitAccessors(t.rec.cls) && AccessorsInstalled(t)
    requires Transform(t, ctor).Done?
    ensures Transform(Transform(t, ctor).state, ctor) == Done(Transform(t, ctor).state)
  {
    TransformOverlaysUpdates(t, ctor);
    var t1 := Transform(t, ctor).state;
    assert t1.rec == Record(t.rec.cls, Overlay(t.rec, t.updates));
    assert AccessorsInstalled(t1);
    TransformOverlaysUpdates(t1, ctor);
    OverlayTwice(t.rec, t.updates);
  }

  /** Queuing the same key twice before one `transform` keeps only the later value. */
  lemma LastWriteWins(t: State, ctor: Constructor, i: nat, x: Value, y: Value)
    requires WellFormed(t.rec) && ImplicitAccessors(t.rec.cls) && AccessorsInstalled(t)
    requires i < |t.rec.cls.components|
    requires Transform(WithTypeUnsafe(WithTypeUnsafe(t, t.rec.cls.components[i].name, x), t.rec.cls.components[i].name, y), ctor).Done?
    ensures Transform(WithTypeUnsafe(WithTypeUnsafe(t, t.rec.cls.components[i].name, x), t.rec.cls.components[i].name, y), ctor).state.rec.values[i] == y
  {
    var t2 := WithTypeUnsafe(WithTypeUnsafe(t, t.rec.cls.components[i].name, x), t.rec.cls.components[i].name, y);
    TransformOverlaysUpdates(t2, ctor);
  }

  /** A throwing accessor raises `GetterMappingException` during `transform`
      and leaves the lens as it was. */
  lemma ThrowingAccessorRaisesMappingException(t: State, ctor: Constructor, i: nat, c: Cause)
    requires WellFormed(t.rec) && AccessorsInstalled(t)
    requires i < |t.rec.cls.components| && t.rec.cls.components[i].accessor == Throws(c)
    requires forall j :: 0 <= j < i ==> t.rec.cls.components[j].accessor == ReadsField(j)
    ensures Transform(t, ctor) == Threw(GetterMappingException(c), t)
  {
    var names := Params(t.rec.cls);
    assert Read(t, names[i], AsGetterMappingException) == Failure(GetterMappingException(c)) by {
      assert t.getters[names[i]] == Accessor(t.rec.cls, i);
    }
    forall j | 0 <= j < i
      ensures Read(t, names[j], AsGetterMappingException).Success?
    {
      assert t.getters[names[j]] == Accessor(t.rec.cls, j);
    }
  }
}
