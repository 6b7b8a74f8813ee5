/**
  `TransformableRecordWrapper`: a transformer whose getter table is not
  taken from the record components but filtered out of all public methods by
  name and return type; its updates are never emptied. A failing accessor's
  reflective exception is wrapped in a plain `RuntimeException`; the
  constructor's reflective exceptions escape raw.
 */
module TransformableRecordWrapper {
  import opened Wrappers
  import opened Records
  import opened Engine
  import opened PartialTransformation
  import RecordLens

  /** The pairs collected into `constructorParams`: each canonical-constructor
      parameter's name with its declared (possibly parameterized) type. */
  function ParamEntries(cls: RecordClass): (es: seq<(string, JType)>)
    ensures |es| == |cls.components|
    ensures forall i :: 0 <= i < |es| ==> es[i] == (cls.components[i].name, cls.components[i].typ)
  {
    seq(|cls.components|, i requires 0 <= i < |cls.components| => (cls.components[i].name, cls.components[i].typ))
  }

  /** The two filters of the constructor: the method is named after a
      parameter, and its return type (a `Class`, hence erased) equals that
      parameter's declared type. A `Class` is never parameterized, so only a
      parameter of a plain class type can let a method through. */
  predicate Passes(params: map<string, JType>, m: Method): (b: bool)
    ensures b ==> m.name in params && params[m.name].ClassType?
  {
    m.name in params && params[m.name] == Erasure(m.returnType)
  }

  /** The same condition stated on the record class itself. */
  ghost predicate Eligible(cls: RecordClass, m: Method)
  {
    exists i :: 0 <= i < |cls.components| && cls.components[i].name == m.name
      && cls.components[i].typ == Erasure(m.returnType)
  }

  /** The filtered stream, in encounter order. */
  function Filter(params: map<string, JType>, ms: seq<Method>): (r: seq<Method>)
    ensures forall m :: m in r <==> m in ms && Passes(params, m)
    decreases |ms|
  {
    if |ms| == 0 then []
    else (if Passes(params, ms[0]) then [ms[0]] else []) + Filter(params, ms[1..])
  }

  function GetterEntries(ms: seq<Method>): (es: seq<(string, Method)>)
    ensures |es| == |ms|
    ensures forall i :: 0 <= i < |es| ==> es[i] == (ms[i].name, ms[i])
  {
    seq(|ms|, i requires 0 <= i < |ms| => (ms[i].name, ms[i]))
  }

  /** The parameter map of a class with distinct component names. */
  lemma ParamMapOf(cls: RecordClass)
    requires DistinctNames(cls)
    ensures ToMap(ParamEntries(cls)).Success?
    ensures forall m :: Passes(ToMap(ParamEntries(cls)).value, m) <==> Eligible(cls, m)
  {
    var es := ParamEntries(cls);
    assert DistinctKeys(es) by {
      assert forall i :: 0 <= i < |es| ==> es[i].0 == cls.components[i].name;
    }
    var params := ToMap(es).value;
    forall m ensures Passes(params, m) <==> Eligible(cls, m) {
      if Passes(params, m) {
        var i :| 0 <= i < |es| && es[i].0 == m.name;
        assert cls.components[i].name == m.name && cls.components[i].typ == Erasure(m.returnType);
      }
      if Eligible(cls, m) {
        var i :| 0 <= i < |cls.components| && cls.components[i].name == m.name
          && cls.components[i].typ == Erasure(m.returnType);
        assert es[i].0 == m.name;
      }
    }
  }

  /** What `Collectors.toMap` makes of the filtered methods, keyed by name. */
  lemma TableOfMethods(ms: seq<Method>, getters: GetterTable)
    requires ToMap(GetterEntries(ms)) == Success(getters)
    ensures forall k :: k in getters <==> exists m :: m in ms && m.name == k
    ensures forall k :: k in getters ==> getters[k] in ms && getters[k].name == k
  {
    var es := GetterEntries(ms);
    forall k ensures k in getters <==> exists m :: m in ms && m.name == k {
      if k in getters {
        var i :| 0 <= i < |es| && es[i].0 == k;
        assert ms[i] in ms;
      }
      if exists m :: m in ms && m.name == k {
        var m :| m in ms && m.name == k;
        var i :| 0 <= i < |ms| && ms[i] == m;
        assert es[i].0 == k;
      }
    }
    forall k | k in getters ensures getters[k] in ms && getters[k].name == k {
      var i :| 0 <= i < |es| && es[i].0 == k;
      assert getters[es[i].0] == es[i].1;
    }
  }

  lemma DistinctParams(cls: RecordClass)
    ensures DistinctKeys(ParamEntries(cls)) <==> DistinctNames(cls)
  {
    var es := ParamEntries(cls);
    assert forall i :: 0 <= i < |es| ==> es[i].0 == cls.components[i].name;
  }

  /** `getters` holds exactly the public methods of `cls` that pass the
      filter, each under its own name. */
  ghost predicate FilteredTable(cls: RecordClass, getters: GetterTable)
  {
    && (forall k :: k in getters <==> exists m :: m in PublicMethods(cls) && m.name == k && Eligible(cls, m))
    && (forall k :: k in getters ==> getters[k] in PublicMethods(cls) && getters[k].name == k && Eligible(cls, getters[k]))
  }

  /** `new TransformableRecordWrapper(instance)`: the getter table holds exactly
      the public methods that are named after a constructor parameter and
      return that parameter's declared type, each under its own name; any other
      method (an unrelated `d()` or `someMethod()`) is left out. Two such
      methods with one name make `Collectors.toMap` throw. */
  function New(instance: Record): (r: Result<State, Error>)
    ensures r.Success? ==> r.value.rec == instance && r.value.updates == map[]
    ensures r.Success? ==> DistinctNames(instance.cls)
    ensures r.Success? ==> FilteredTable(instance.cls, r.value.getters)
    ensures r.Failure? ==> r.error.IllegalStateException?
  {
    var params :- ToMap(ParamEntries(instance.cls));
    var eligible := Filter(params, PublicMethods(instance.cls));
    var getters :- ToMap(GetterEntries(eligible));
    DistinctParams(instance.cls);
    ParamMapOf(instance.cls);
    TableOfMethods(eligible, getters);
    Success(State(instance, getters, map[]))
  }

  /** `instance()`: the current record. */
  function Instance(t: State): Record
  {
    t.rec
  }

  /** `with(getter, value)`: queue one update under the field name the getter
      names; the last write wins and the wrapper comes back for chaining. */
  function With(t: State, h: Handle, value: Value): (r: State)
    ensures Instance(r) == Instance(t) && r.getters == t.getters
    ensures r.updates.Keys == t.updates.Keys + {h.field}
    ensures r.updates[h.field] == value
    ensures forall k :: k in t.updates && k != h.field ==> r.updates[k] == t.updates[k]
  {
    Put(t, h.field, value)
  }

  predicate GettersSucceed(t: State)
  {
    ReadsSucceed(t, Params(t.rec.cls), AsRuntimeException)
  }

  function Args(t: State): seq<Value>
    requires GettersSucceed(t)
  {
    Merged(t, Params(t.rec.cls), AsRuntimeException)
  }

  /** `transform()`: merge the pending updates over the getter values in
      parameter order and construct. The updates are never emptied; the
      instance is replaced only if the constructor accepts; a failing getter
      surfaces as `RuntimeException`, a missing one as `NullPointerException`,
      and constructor failures exactly as `newInstance` throws them. */
  function Transform(t: State, ctor: Constructor): (r: Outcome)
    ensures r.state.getters == t.getters && r.state.updates == t.updates
    ensures r.Threw? ==> r.state == t
    ensures !GettersSucceed(t) ==> r.Threw?
    ensures !GettersSucceed(t) ==> FirstReadFailure(t, Params(t.rec.cls), AsRuntimeException, r.error)
    ensures r.Done? <==> GettersSucceed(t) && ctor(Args(t)) == Accepted
    ensures r.Done? ==> r.state.rec == Record(t.rec.cls, Args(t))
    ensures GettersSucceed(t) && ctor(Args(t)) == Rejected(ArgumentMismatch) ==>
      r.Threw? && r.error == IllegalArgumentException
    ensures GettersSucceed(t) && ctor(Args(t)).Rejected? && ctor(Args(t)).why.BodyThrew? ==>
      r.Threw? && r.error == InvocationTargetException(ctor(Args(t)).why.cause)
  {
    match Assemble(t, Params(t.rec.cls), AsRuntimeException)
    case Failure(e) => Threw(e, t)
    case Success(args) =>
      match ctor(args)
      case Accepted => Done(t.(rec := Record(t.rec.cls, args)))
      case Rejected(ArgumentMismatch) => Threw(IllegalArgumentException, t)
      case Rejected(BodyThrew(c)) => Threw(InvocationTargetException(c), t)
  }

  /** Apart from how errors are reported, the wrapper transforms exactly like
      `RecordLens`: same success, same resulting state. */
  lemma AgreesWithLens(t: State, ctor: Constructor)
    ensures Transform(t, ctor).Done? <==> RecordLens.Transform(t, ctor).Done?
    ensures Transform(t, ctor).state == RecordLens.Transform(t, ctor).state
  {
    var names := Params(t.rec.cls);
    assert forall i :: 0 <= i < |names| ==>
      Read(t, names[i], AsRuntimeException).Success? == Read(t, names[i], AsGetterMappingException).Success?;
    if GettersSucceed(t) {
      assert Args(t) == RecordLens.Args(t);
    }
  }

  /** With the accessors installed, each rebuilt field is its pending update
      if it has one and its current value otherwise, and the updates stay. */
  lemma TransformOverlaysUpdates(t: State, ctor: Constructor)
    requires WellFormed(t.rec) && ImplicitAccessors(t.rec.cls) && AccessorsInstalled(t)
    ensures Transform(t, ctor).Done? <==> ctor(Overlay(t.rec, t.updates)) == Accepted
    ensures Transform(t, ctor).Done? ==> Transform(t, ctor).state == t.(rec := Record(t.rec.cls, Overlay(t.rec, t.updates)))
  {
    AgreesWithLens(t, ctor);
    RecordLens.TransformOverlaysUpdates(t, ctor);
  }

  /** `instance()` before and after `transform`: a queued update does not show
      until `transform`; a successful one shows the record rebuilt with it, and
      a failed one the record as it was. */
  lemma InstanceShowsUpdatesOnlyAfterTransform(t: State, field: string, value: Value, ctor: Constructor)
    requires WellFormed(t.rec) && ImplicitAccessors(t.rec.cls) && AccessorsInstalled(t)
    ensures Instance(With(t, Handle(field), value)) == Instance(t)
    ensures Transform(With(t, Handle(field), value), ctor).Done? ==>
      Instance(Transform(With(t, Handle(field), value), ctor).state) == Record(t.rec.cls, Overlay(t.rec, t.updates[field := value]))
    ensures Transform(With(t, Handle(field), value), ctor).Threw? ==>
      Instance(Transform(With(t, Handle(field), value), ctor).state) == Instance(t)
  {
    var t1 := With(t, Handle(field), value);
    assert t1.updates == t.updates[field := value];
    TransformOverlaysUpdates(t1, ctor);
  }

  /** The conditions under which the filtered methods are exactly the accessors. */
  ghost predicate Plain(cls: RecordClass)
  {
    && DistinctNames(cls)
    && (forall i :: 0 <= i < |cls.components| ==> cls.components[i].typ.ClassType?)
    && (forall m :: m in cls.extraMethods ==> !Eligible(cls, m))
  }

  lemma EligibleMethodsOfPlain(cls: RecordClass)
    requires Plain(cls)
    ensures forall m :: m in PublicMethods(cls) && Eligible(cls, m) <==>
      exists i :: 0 <= i < |cls.components| && m == Accessor(cls, i)
  {
    var acc := Accessors(cls);
    assert PublicMethods(cls) == acc + cls.extraMethods;
    forall m | m in PublicMethods(cls) && Eligible(cls, m)
      ensures exists i :: 0 <= i < |cls.components| && m == Accessor(cls, i)
    {
      assert m !in cls.extraMethods;
      var i :| 0 <= i < |acc| && acc[i] == m;
    }
    forall i | 0 <= i < |cls.components|
      ensures Accessor(cls, i) in PublicMethods(cls) && Eligible(cls, Accessor(cls, i))
    {
      assert acc[i] == Accessor(cls, i);
    }
  }

  /** No method that passes the filter occurs twice in `ms`. */
  predicate PassingDistinct(params: map<string, JType>, ms: seq<Method>)
  {
    forall a, b :: 0 <= a < b < |ms| && Passes(params, ms[a]) && Passes(params, ms[b]) ==> ms[a] != ms[b]
  }

  /** Filtering keeps no passing element twice if the input held none twice. */
  lemma FilterNoRepeats(params: map<string, JType>, ms: seq<Method>)
    requires PassingDistinct(params, ms)
    ensures forall a, b :: 0 <= a < b < |Filter(params, ms)| ==> Filter(params, ms)[a] != Filter(params, ms)[b]
    decreases |ms|
  {
    if |ms| > 0 {
      var rest := ms[1..];
      assert forall a, b :: 0 <= a < b < |rest| ==> rest[a] == ms[a + 1] && rest[b] == ms[b + 1];
      FilterNoRepeats(params, rest);
      if Passes(params, ms[0]) {
        var f := Filter(params, ms);
        assert f == [ms[0]] + Filter(params, rest);
        forall b | 1 <= b < |f| ensures f[0] != f[b] {
          assert f[b] in Filter(params, rest);
          var c :| 0 <= c < |rest| && rest[c] == f[b];
          assert ms[c + 1] == f[b];
        }
      }
    }
  }

  /** The accessors of a class with distinct names are pairwise different, so
      passing methods never repeat in its method list. */
  lemma PassingMethodsDistinct(cls: RecordClass)
    requires Plain(cls)
    ensures ToMap(ParamEntries(cls)).Success?
    ensures PassingDistinct(ToMap(ParamEntries(cls)).value, PublicMethods(cls))
  {
    ParamMapOf(cls);
    var params := ToMap(ParamEntries(cls)).value;
    var ms := PublicMethods(cls);
    var acc := Accessors(cls);
    assert ms == acc + cls.extraMethods;
    forall a, b | 0 <= a < b < |ms| && Passes(params, ms[a]) && Passes(params, ms[b])
      ensures ms[a] != ms[b]
    {
      if b < |acc| {
        assert ms[a] == Accessor(cls, a) && ms[b] == Accessor(cls, b);
        assert cls.components[a].name != cls.components[b].name;
      }
    }
  }

  /** For a plain class the filtered methods have pairwise different names,
      so `Collectors.toMap` succeeds. */
  lemma PlainTableBuilds(cls: RecordClass)
    requires Plain(cls)
    ensures ToMap(ParamEntries(cls)).Success?
    ensures DistinctKeys(GetterEntries(Filter(ToMap(ParamEntries(cls)).value, PublicMethods(cls))))
  {
    ParamMapOf(cls);
    var params := ToMap(ParamEntries(cls)).value;
    var eligible := Filter(params, PublicMethods(cls));
    EligibleMethodsOfPlain(cls);
    PassingMethodsDistinct(cls);
    FilterNoRepeats(params, PublicMethods(cls));
    var es := GetterEntries(eligible);
    forall a, b | 0 <= a < b < |es| ensures es[a].0 != es[b].0 {
      assert eligible[a] in eligible && eligible[b] in eligible;
      var i :| 0 <= i < |cls.components| && eligible[a] == Accessor(cls, i);
      var j :| 0 <= j < |cls.components| && eligible[b] == Accessor(cls, j);
    }
  }

  /** A record whose components all have non-generic types, and none of whose
      extra methods passes the filter, gets exactly the accessor table
      `RecordTransformer` builds. */
  lemma PlainRecordGetsAccessors(instance: Record)
    requires Plain(instance.cls)
    ensures New(instance).Success?
    ensures AccessorsInstalled(New(instance).value)
    ensures forall k :: k in New(instance).value.getters <==> k in Params(instance.cls)
  {
    PlainTableBuilds(instance.cls);
    assert New(instance).Success?;
    var t := New(instance).value;
    assert t.rec == instance;
    PlainTableIsAccessors(instance.cls, t.getters);
  }

  lemma PlainTableIsAccessors(cls: RecordClass, getters: GetterTable)
    requires Plain(cls) && FilteredTable(cls, getters)
    ensures forall i :: 0 <= i < |cls.components| ==>
      cls.components[i].name in getters && getters[cls.components[i].name] == Accessor(cls, i)
    ensures forall k :: k in getters <==> k in Params(cls)
  {
    forall i | 0 <= i < |cls.components|
      ensures cls.components[i].name in getters && getters[cls.components[i].name] == Accessor(cls, i)
    {
      AccessorInTable(cls, getters, i);
    }
    forall k | k in getters ensures k in Params(cls) {
      var j := TableEntryIsAccessor(cls, getters, k);
      assert Params(cls)[j] == k;
    }
  }

  /** Every entry of a plain class's table is one of its accessors. */
  lemma TableEntryIsAccessor(cls: RecordClass, getters: GetterTable, k: string) returns (j: nat)
    requires Plain(cls) && FilteredTable(cls, getters) && k in getters
    ensures j < |cls.components| && getters[k] == Accessor(cls, j)
    ensures cls.components[j].name == k
  {
    var g := getters[k];
    assert g in PublicMethods(cls) && g.name == k && Eligible(cls, g);
    EligibleMethodsOfPlain(cls);
    j :| 0 <= j < |cls.components| && g == Accessor(cls, j);
  }

  lemma AccessorInTable(cls: RecordClass, getters: GetterTable, i: nat)
    requires Plain(cls) && FilteredTable(cls, getters) && i < |cls.components|
    ensures cls.components[i].name in getters
    ensures getters[cls.components[i].name] == Accessor(cls, i)
  {
    var k := cls.components[i].name;
    var m := Accessor(cls, i);
    assert PublicMethods(cls)[i] == m;
    assert Eligible(cls, m) by {
      assert cls.components[i].name == m.name && cls.components[i].typ == Erasure(m.returnType);
    }
    assert k in getters;
    var j := TableEntryIsAccessor(cls, getters, k);
  }

  /** A component of a parameterized or type-variable type never gets a getter:
      its declared type is not a `Class`, so it never equals an erased return
      type. */
  lemma GenericComponentHasNoGetter(instance: Record, i: nat)
    requires New(instance).Success?
    requires i < |instance.cls.components| && !instance.cls.components[i].typ.ClassType?
    ensures instance.cls.components[i].name !in New(instance).value.getters
  {
    var cls := instance.cls;
    forall m | m in PublicMethods(cls) && m.name == cls.components[i].name
      ensures !Eligible(cls, m)
    {
      forall j | 0 <= j < |cls.components| && cls.components[j].name == m.name
        ensures cls.components[j].typ != Erasure(m.returnType)
      {
        assert i == j;
      }
    }
  }

  lemma FilterNonePass(params: map<string, JType>, ms: seq<Method>)
    requires forall i :: 0 <= i < |ms| ==> !Passes(params, ms[i])
    ensures Filter(params, ms) == []
    decreases |ms|
  {
    if |ms| > 0 {
      FilterNonePass(params, ms[1..]);
    }
  }

  /** A record all of whose components are generic gets an empty getter
      table: no method's erased return type equals a parameterized type or a
      type variable. */
  lemma AllGenericTableEmpty(instance: Record)
    requires DistinctNames(instance.cls)
    requires forall i :: 0 <= i < |instance.cls.components| ==> !instance.cls.components[i].typ.ClassType?
    ensures New(instance).Success? && New(instance).value.getters == map[]
  {
    var cls := instance.cls;
    DistinctParams(cls);
    ParamMapOf(cls);
    var params := ToMap(ParamEntries(cls)).value;
    var ms := PublicMethods(cls);
    forall i | 0 <= i < |ms| ensures !Passes(params, ms[i]) {
      assert !Eligible(cls, ms[i]);
    }
    FilterNonePass(params, ms);
    var kept := Filter(params, ms);
    assert GetterEntries(kept) == [];
  }

  /** A constructor parameter without a getter makes every `transform` fail,
      even when that field has a pending update, because the getter is looked
      up for every parameter; the instance stays as it was. */
  lemma MissingGetterFailsTransform(t: State, ctor: Constructor, i: nat)
    requires i < |t.rec.cls.components| && t.rec.cls.components[i].name !in t.getters
    ensures Transform(t, ctor).Threw? && Transform(t, ctor).state == t
  {
    assert Read(t, Params(t.rec.cls)[i], AsRuntimeException).Failure?;
  }
}
