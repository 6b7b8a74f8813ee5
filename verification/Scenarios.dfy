/**
  The repository's test cases and usage examples, written down as concrete
  records and constructors and proved against the model.
 */
module Scenarios {
  import opened Wrappers
  import opened Records
  import opened Engine
  import opened PartialTransformation
  import RecordTransformer
  import RecordLens
  import TransformableRecordWrapper
  import CachedRecordTransformer

  const IntT := ClassType("int")
  const StringT := ClassType("java.lang.String")
  const BooleanT := ClassType("boolean")
  const FloatT := ClassType("float")
  const RuntimeFailure := Cause("java.lang.RuntimeException")

  /** `record ExampleRec(int a, String b)`. */
  const ExampleRecClass := RecordClass("ExampleRec",
    [Component("a", IntT, ReadsField(0)), Component("b", StringT, ReadsField(1))], [])

  function ExampleRec(a: int, b: string): Record
  {
    Record(ExampleRecClass, [IntV(a), StrV(b)])
  }

  /** Its canonical constructor: an `int` and a `String` (or null), else the
      arguments do not convert. */
  function ExampleRecCtor(args: seq<Value>): Construction
  {
    if |args| == 2 && args[0].IntV? && (args[1].StrV? || args[1].NullV?) then Accepted
    else Rejected(ArgumentMismatch)
  }

  /** `record ExplodingRecord(int a, String b)` whose accessor `a()` throws. */
  const ExplodingClass := RecordClass("ExplodingRecord",
    [Component("a", IntT, Throws(RuntimeFailure)), Component("b", StringT, ReadsField(1))], [])

  /** `record RecordWithConstructorThatSometimesExplodes(boolean explode)`:
      its constructor body throws when `explode` is true. */
  const SometimesExplodesClass := RecordClass("RecordWithConstructorThatSometimesExplodes",
    [Component("explode", BooleanT, ReadsField(0))], [])

  function SometimesExplodesCtor(args: seq<Value>): Construction
  {
    if args == [BoolV(true)] then Rejected(BodyThrew(RuntimeFailure))
    else if |args| == 1 && args[0].BoolV? then Accepted
    else Rejected(ArgumentMismatch)
  }

  /** `record ExampleRecord(int a, String b, float c)` with the extra public
      methods `void someMethod()` and `boolean d()`. */
  const ExampleRecordClass := RecordClass("ExampleRecord",
    [Component("a", IntT, ReadsField(0)), Component("b", StringT, ReadsField(1)),
     Component("c", FloatT, ReadsField(2))],
    [Method("someMethod", 0, ClassType("void"), Returns(NullV)),
     Method("d", 0, BooleanT, Returns(BoolV(false)))])

  function ExampleRecord(a: int, b: string, c: real): Record
  {
    Record(ExampleRecordClass, [IntV(a), StrV(b), FloatV(c)])
  }

  function ExampleRecordCtor(args: seq<Value>): Construction
  {
    if |args| == 3 && args[0].IntV? && (args[1].StrV? || args[1].NullV?) && args[2].FloatV? then Accepted
    else Rejected(ArgumentMismatch)
  }

  /** A record with one generic component, `record Tags(List<String> tags)`. */
  const TagsClass := RecordClass("Tags",
    [Component("tags", Parameterized("java.util.List", [StringT]), ReadsField(0))], [])

  lemma ExampleRecShape(a: int, b: string)
    ensures WellFormed(ExampleRec(a, b)) && ImplicitAccessors(ExampleRecClass)
    ensures Params(ExampleRecClass) == ["a", "b"]
  {
    assert ExampleRecClass.components[0].name != ExampleRecClass.components[1].name;
  }

  /** Laying updates over an `ExampleRec`, field by field. */
  lemma ExampleRecOverlay(a: int, b: string, updates: Updates)
    ensures Overlay(ExampleRec(a, b), updates) == [Pick(updates, "a", IntV(a)), Pick(updates, "b", StrV(b))]
  {
  }

  /** `RecordTransformerTest.shouldTransformRecord`: `with(a).as(2)` then
      `transform` gives `ExampleRec(2, "foo")`; `withTypeUnsafe("b", "bar")` then
      `transform` gives `ExampleRec(2, "bar")`, the first update having been
      consumed. */
  lemma TransformerTransformsRecord()
    ensures RecordTransformer.New(ExampleRec(1, "foo")).Success?
    ensures
      var t0 := RecordTransformer.New(ExampleRec(1, "foo")).value;
      var o1 := RecordTransformer.Transform(As(RecordTransformer.With(t0, Handle("a")), IntV(2)), ExampleRecCtor);
      var o2 := RecordTransformer.Transform(RecordTransformer.WithTypeUnsafe(o1.state, "b", StrV("bar")), ExampleRecCtor);
      && o1.Done? && RecordTransformer.Rec(o1.state) == ExampleRec(2, "foo")
      && o2.Done? && RecordTransformer.Rec(o2.state) == ExampleRec(2, "bar")
      && o2.state.updates == map[]
  {
    ExampleRecShape(1, "foo");
    var t0 := RecordTransformer.New(ExampleRec(1, "foo")).value;
    var t1 := As(RecordTransformer.With(t0, Handle("a")), IntV(2));
    assert t1.updates == map["a" := IntV(2)];
    RecordTransformer.TransformOverlaysUpdates(t1, ExampleRecCtor);
    ExampleRecOverlay(1, "foo", t1.updates);
    var o1 := RecordTransformer.Transform(t1, ExampleRecCtor);
    assert o1.state.rec == ExampleRec(2, "foo");
    ExampleRecShape(2, "foo");
    var t2 := RecordTransformer.WithTypeUnsafe(o1.state, "b", StrV("bar"));
    assert t2.updates == map["b" := StrV("bar")];
    RecordTransformer.TransformOverlaysUpdates(t2, ExampleRecCtor);
    ExampleRecOverlay(2, "foo", t2.updates);
  }

  /** `RecordLensTest.shouldTransformRecord`: the same two steps give the same
      records, but the lens keeps both updates pending afterwards. */
  lemma LensTransformsRecord()
    ensures RecordLens.New(ExampleRec(1, "foo")).Success?
    ensures
      var t0 := RecordLens.New(ExampleRec(1, "foo")).value;
      var o1 := RecordLens.Transform(As(RecordLens.With(t0, Handle("a")), IntV(2)), ExampleRecCtor);
      var o2 := RecordLens.Transform(RecordLens.WithTypeUnsafe(o1.state, "b", StrV("bar")), ExampleRecCtor);
      && o1.Done? && o1.state.rec == ExampleRec(2, "foo")
      && o2.Done? && o2.state.rec == ExampleRec(2, "bar")
      && o2.state.updates == map["a" := IntV(2), "b" := StrV("bar")]
  {
    ExampleRecShape(1, "foo");
    var t0 := RecordLens.New(ExampleRec(1, "foo")).value;
    var t1 := As(RecordLens.With(t0, Handle("a")), IntV(2));
    assert t1.updates == map["a" := IntV(2)];
    RecordLens.TransformOverlaysUpdates(t1, ExampleRecCtor);
    ExampleRecOverlay(1, "foo", t1.updates);
    var o1 := RecordLens.Transform(t1, ExampleRecCtor);
    assert o1.state.rec == ExampleRec(2, "foo");
    ExampleRecShape(2, "foo");
    var t2 := RecordLens.WithTypeUnsafe(o1.state, "b", StrV("bar"));
    assert t2.updates == map["a" := IntV(2), "b" := StrV("bar")];
    RecordLens.TransformOverlaysUpdates(t2, ExampleRecCtor);
    ExampleRecOverlay(2, "foo", t2.updates);
  }

  /** `shouldExplode`: the throwing accessor `a()` makes `transform` raise
      `GetterException` in the transformer and `GetterMappingException` in the
      lens, whatever the constructor, and leaves each as it was. */
  lemma ThrowingAccessorExplodes(ctor: Constructor)
    ensures RecordTransformer.New(Record(ExplodingClass, [IntV(1), StrV("foo")])).Success?
    ensures RecordLens.New(Record(ExplodingClass, [IntV(1), StrV("foo")])).Success?
    ensures
      var t := RecordTransformer.New(Record(ExplodingClass, [IntV(1), StrV("foo")])).value;
      RecordTransformer.Transform(t, ctor) == Threw(GetterException(RuntimeFailure), t)
    ensures
      var t := RecordLens.New(Record(ExplodingClass, [IntV(1), StrV("foo")])).value;
      RecordLens.Transform(t, ctor) == Threw(GetterMappingException(RuntimeFailure), t)
  {
    assert ExplodingClass.components[0].name != ExplodingClass.components[1].name;
    var rec := Record(ExplodingClass, [IntV(1), StrV("foo")]);
    RecordTransformer.ThrowingAccessorAborts(RecordTransformer.New(rec).value, ctor, 0, RuntimeFailure);
    RecordLens.ThrowingAccessorRaisesMappingException(RecordLens.New(rec).value, ctor, 0, RuntimeFailure);
  }

  /** `shouldExplodeOnTransform`: queuing `explode = true` makes the
      constructor body throw, reported as `ConstructorException`; the record
      is still the original one and the update has been consumed, so the
      transformer is back where it started. */
  lemma ThrowingConstructorExplodes()
    ensures RecordTransformer.New(Record(SometimesExplodesClass, [BoolV(false)])).Success?
    ensures
      var t0 := RecordTransformer.New(Record(SometimesExplodesClass, [BoolV(false)])).value;
      RecordTransformer.Transform(As(RecordTransformer.With(t0, Handle("explode")), BoolV(true)), SometimesExplodesCtor)
      == Threw(ConstructorException(BodyThrew(RuntimeFailure)), t0)
  {
    var rec := Record(SometimesExplodesClass, [BoolV(false)]);
    var t0 := RecordTransformer.New(rec).value;
    var t1 := As(RecordTransformer.With(t0, Handle("explode")), BoolV(true));
    assert Params(SometimesExplodesClass) == ["explode"];
    Engine.MergedFromCurrent(t1, AsGetterException);
    assert Overlay(rec, t1.updates) == [BoolV(true)];
  }

  /** The finding in concrete form: queuing a `String` for the `int` field
      `a` makes the code as written throw a bare `IllegalArgumentException` in
      both snapshots, where the corrected model reports `ConstructorException`. */
  lemma MismatchExample()
    ensures RecordTransformer.New(ExampleRec(1, "foo")).Success?
    ensures RecordLens.New(ExampleRec(1, "foo")).Success?
    ensures
      var t := RecordTransformer.WithTypeUnsafe(RecordTransformer.New(ExampleRec(1, "foo")).value, "a", StrV("two"));
      && RecordTransformer.TransformAsWritten(t, ExampleRecCtor).error == IllegalArgumentException
      && RecordTransformer.Transform(t, ExampleRecCtor).error == ConstructorException(ArgumentMismatch)
    ensures
      var t := RecordLens.WithTypeUnsafe(RecordLens.New(ExampleRec(1, "foo")).value, "a", StrV("two"));
      && RecordLens.TransformAsWritten(t, ExampleRecCtor).error == IllegalArgumentException
      && RecordLens.Transform(t, ExampleRecCtor).error == LensConstructorException(ArgumentMismatch)
  {
    ExampleRecShape(1, "foo");
    var t := RecordTransformer.WithTypeUnsafe(RecordTransformer.New(ExampleRec(1, "foo")).value, "a", StrV("two"));
    Engine.MergedFromCurrent(t, AsGetterException);
    ExampleRecOverlay(1, "foo", t.updates);
    RecordTransformer.MismatchEscapesUnwrapped(t, ExampleRecCtor);
    var l := RecordLens.WithTypeUnsafe(RecordLens.New(ExampleRec(1, "foo")).value, "a", StrV("two"));
    Engine.MergedFromCurrent(l, AsGetterMappingException);
    ExampleRecOverlay(1, "foo", l.updates);
    RecordLens.MismatchEscapesUnwrapped(l, ExampleRecCtor);
  }

  lemma ExampleRecordClassIsPlain()
    ensures ImplicitAccessors(ExampleRecordClass)
    ensures TransformableRecordWrapper.Plain(ExampleRecordClass)
    ensures Params(ExampleRecordClass) == ["a", "b", "c"]
  {
    var cls := ExampleRecordClass;
    forall m | m in cls.extraMethods
      ensures !TransformableRecordWrapper.Eligible(cls, m)
    {
      forall i | 0 <= i < |cls.components|
        ensures cls.components[i].name != m.name
      {
      }
    }
  }

  lemma ExampleRecordShape(a: int, b: string, c: real)
    ensures WellFormed(ExampleRecord(a, b, c)) && ImplicitAccessors(ExampleRecordClass)
    ensures Params(ExampleRecordClass) == ["a", "b", "c"]
  {
    ExampleRecordClassIsPlain();
  }

  lemma KeysOfParams(getters: GetterTable, ps: seq<string>)
    requires ps == ["a", "b", "c"]
    requires forall k :: k in getters <==> k in ps
    ensures getters.Keys == {"a", "b", "c"}
  {
  }

  /** The wrapper's getter table for an `ExampleRecord`: exactly the
      accessors of `a`, `b` and `c`; `d()` and `someMethod()` are left out. */
  lemma WrapperSkipsExtraMethods(instance: Record)
    requires instance.cls == ExampleRecordClass
    ensures TransformableRecordWrapper.New(instance).Success?
    ensures TransformableRecordWrapper.New(instance).value.getters.Keys == {"a", "b", "c"}
    ensures AccessorsInstalled(TransformableRecordWrapper.New(instance).value)
  {
    ExampleRecordClassIsPlain();
    TransformableRecordWrapper.PlainRecordGetsAccessors(instance);
    KeysOfParams(TransformableRecordWrapper.New(instance).value.getters, Params(instance.cls));
  }

  /** `Example.main` from a freshly built wrapper: `with(a, 2).with(b, "bar")`
      then `transform` turns `(1, "foo", 5.0)` into `(2, "bar", 5.0)`; a
      further `with(a, 3)` then `transform` gives `(3, "bar", 5.0)`, `c` never
      changing. */
  lemma WrapperExample(instance: Record)
    requires instance == ExampleRecord(1, "foo", 5.0)
    ensures TransformableRecordWrapper.New(instance).Success?
    ensures
      var t0 := TransformableRecordWrapper.New(instance).value;
      var o1 := TransformableRecordWrapper.Transform(
        TransformableRecordWrapper.With(TransformableRecordWrapper.With(t0, Handle("a"), IntV(2)), Handle("b"), StrV("bar")),
        ExampleRecordCtor);
      var o2 := TransformableRecordWrapper.Transform(TransformableRecordWrapper.With(o1.state, Handle("a"), IntV(3)), ExampleRecordCtor);
      && o1.Done? && TransformableRecordWrapper.Instance(o1.state) == ExampleRecord(2, "bar", 5.0)
      && o2.Done? && TransformableRecordWrapper.Instance(o2.state) == ExampleRecord(3, "bar", 5.0)
  {
    WrapperSkipsExtraMethods(instance);
    WrapperExampleSteps(TransformableRecordWrapper.New(instance).value);
  }

  lemma WrapperExampleSteps(t0: State)
    requires t0.rec == ExampleRecord(1, "foo", 5.0) && t0.updates == map[] && AccessorsInstalled(t0)
    ensures
      var o1 := TransformableRecordWrapper.Transform(
        TransformableRecordWrapper.With(TransformableRecordWrapper.With(t0, Handle("a"), IntV(2)), Handle("b"), StrV("bar")),
        ExampleRecordCtor);
      var o2 := TransformableRecordWrapper.Transform(TransformableRecordWrapper.With(o1.state, Handle("a"), IntV(3)), ExampleRecordCtor);
      && o1.Done? && TransformableRecordWrapper.Instance(o1.state) == ExampleRecord(2, "bar", 5.0)
      && o2.Done? && TransformableRecordWrapper.Instance(o2.state) == ExampleRecord(3, "bar", 5.0)
  {
    var t1 := TransformableRecordWrapper.With(TransformableRecordWrapper.With(t0, Handle("a"), IntV(2)), Handle("b"), StrV("bar"));
    assert t1.updates == map["a" := IntV(2), "b" := StrV("bar")];
    WrapperStep(t1, 1, "foo", 2, "bar");
    var o1 := TransformableRecordWrapper.Transform(t1, ExampleRecordCtor);
    var t2 := TransformableRecordWrapper.With(o1.state, Handle("a"), IntV(3));
    assert t2.updates == map["a" := IntV(3), "b" := StrV("bar")];
    WrapperStep(t2, 2, "bar", 3, "bar");
  }

  /** One wrapper `transform` of an `ExampleRecord` with both `a` and `b` queued. */
  lemma WrapperStep(t: State, a: int, b: string, a': int, b': string)
    requires t.rec == ExampleRecord(a, b, 5.0) && AccessorsInstalled(t)
    requires t.updates == map["a" := IntV(a'), "b" := StrV(b')]
    ensures TransformableRecordWrapper.Transform(t, ExampleRecordCtor) == Done(t.(rec := ExampleRecord(a', b', 5.0)))
  {
    ExampleRecordShape(a, b, 5.0);
    TransformableRecordWrapper.TransformOverlaysUpdates(t, ExampleRecordCtor);
    assert Overlay(t.rec, t.updates) == [IntV(a'), StrV(b'), FloatV(5.0)];
  }

  /** A generic component gets no getter in the wrapper, so `transform` of a
      `Tags` record fails with a null dereference of the missing getter, even
      when the field has an update queued. */
  lemma WrapperFailsOnGenericComponent(instance: Record, v: Value, ctor: Constructor)
    requires instance.cls == TagsClass
    ensures TransformableRecordWrapper.New(instance).Success?
    ensures
      var t := TransformableRecordWrapper.With(TransformableRecordWrapper.New(instance).value, Handle("tags"), v);
      TransformableRecordWrapper.Transform(t, ctor) == Threw(NullPointerException("tags"), t)
  {
    TransformableRecordWrapper.AllGenericTableEmpty(instance);
    var t := TransformableRecordWrapper.With(TransformableRecordWrapper.New(instance).value, Handle("tags"), v);
    assert Params(TagsClass) == ["tags"];
    assert Read(t, "tags", AsRuntimeException) == Failure(NullPointerException("tags"));
  }

  /** `CachedRecordTransformerTest.shouldTransformRecord`: a first cached
      transformer fills the cache, a second one for an equal record hits it,
      and both turn `ExampleRec(1, "foo")` into `ExampleRec(2, "foo")`. */
  lemma CachedTransformsRecord()
    ensures CachedRecordTransformer.New(map[], ExampleRec(1, "foo")).Success?
    ensures
      var first := CachedRecordTransformer.New(map[], ExampleRec(1, "foo")).value;
      && CachedRecordTransformer.New(first.cache, ExampleRec(1, "foo")).Success?
      && CachedRecordTransformer.New(first.cache, ExampleRec(1, "foo")).value.cache == first.cache
      && first.cache.Keys == {"ExampleRec"}
    ensures
      var first := CachedRecordTransformer.New(map[], ExampleRec(1, "foo")).value;
      var second := CachedRecordTransformer.New(first.cache, ExampleRec(1, "foo")).value;
      && RecordTransformer.Transform(As(RecordTransformer.With(first.transformer, Handle("a")), IntV(2)), ExampleRecCtor)
         == Done(RecordTransformer.New(ExampleRec(2, "foo")).value)
      && RecordTransformer.Transform(As(RecordTransformer.With(second.transformer, Handle("a")), IntV(2)), ExampleRecCtor)
         == Done(RecordTransformer.New(ExampleRec(2, "foo")).value)
  {
    ExampleRecShape(1, "foo");
    CachedRecordTransformer.CacheHitTransformsIdentically(ExampleRec(1, "foo"), ExampleRec(1, "foo"), ExampleRecCtor);
    var t0 := RecordTransformer.New(ExampleRec(1, "foo")).value;
    var t1 := As(RecordTransformer.With(t0, Handle("a")), IntV(2));
    RecordTransformer.TransformOverlaysUpdates(t1, ExampleRecCtor);
    ExampleRecOverlay(1, "foo", t1.updates);
    assert RecordTransformer.Transform(t1, ExampleRecCtor).state.rec == ExampleRec(2, "foo");
    ExampleRecShape(2, "foo");
  }
}
