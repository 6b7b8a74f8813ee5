/**
  The merge engine every transformer snapshot is built on: the transformer
  state (current record, getter table, pending updates), the exceptions, one
  getter call, the assembly of the canonical-constructor arguments, `Map.put`,
  and `Collectors.toMap`.
 */
module Engine {
  import opened Wrappers
  import opened Records

  /** The exceptions a transformer can raise, named as in Java. */
  datatype Error =
      /** RecordTransformer's wrapper around a failing accessor. */
    | GetterException(cause: Cause)
      /** RecordLens's wrapper around a failing accessor. */
    | GetterMappingException(cause: Cause)
      /** TransformableRecordWrapper's wrapper around a failing accessor. */
    | RuntimeException(cause: Cause)
      /** RecordTransformer's wrapper around a failing canonical constructor
          (`com.sikina.recordtransformer.ConstructorException`). */
    | ConstructorException(why: Rejection)
      /** RecordLens's wrapper around a failing canonical constructor, a
          different class of the same simple name
          (`com.sikina.recordtransformer.exceptions.ConstructorException`). */
    | LensConstructorException(why: Rejection)
      /** A constructor body's exception as `Constructor.newInstance` reports it, unwrapped. */
    | InvocationTargetException(cause: Cause)
      /** `Method.invoke` or `Constructor.newInstance` refused the call itself. */
    | IllegalArgumentException
      /** A constructor parameter with no getter: `getters.get(key)` was null. */
    | NullPointerException(key: string)
      /** `Collectors.toMap` met the same key twice. */
    | IllegalStateException(key: string)

  /** What the getter closure built by `createInvokableGetter` turns a
      `ReflectiveOperationException` into; the snapshots differ only in this. */
  datatype GetterWrap = AsGetterException | AsGetterMappingException | AsRuntimeException

  /** Field name to accessor method. */
  type GetterTable = map<string, Method>

  /** Pending updates: field name to new value. */
  type Updates = map<string, Value>

  /** A transformer: the current record, its getter table and the pending updates. */
  datatype State = State(rec: Record, getters: GetterTable, updates: Updates)

  /** The result of `transform`. Java mutates the transformer and may then
      throw, so a failed call carries the state it leaves behind too. */
  datatype Outcome = Done(state: State) | Threw(error: Error, state: State)

  /** The catch in `createInvokableGetter`: a `ReflectiveOperationException`
      is wrapped in the snapshot's own exception, keeping its cause; an
      `IllegalArgumentException` is not one and escapes as it is. */
  function WrapGetterFailure(w: GetterWrap, e: InvokeError): (r: Error)
    ensures r.IllegalArgumentException? <==> e.BadArgument?
    ensures e.TargetThrew? ==> (r.GetterException? || r.GetterMappingException? || r.RuntimeException?) && r.cause == e.cause
    ensures e.TargetThrew? ==> (r.GetterException? <==> w.AsGetterException?)
    ensures e.TargetThrew? ==> (r.GetterMappingException? <==> w.AsGetterMappingException?)
    ensures e.TargetThrew? ==> (r.RuntimeException? <==> w.AsRuntimeException?)
  {
    match e
    case BadArgument => IllegalArgumentException
    case TargetThrew(c) =>
      match w
      case AsGetterException => GetterException(c)
      case AsGetterMappingException => GetterMappingException(c)
      case AsRuntimeException => RuntimeException(c)
  }

  /** `getValueFromCurrent(key)`: look the getter up and apply it to the
      current record; an absent getter is a null dereference. */
  function Read(st: State, key: string, w: GetterWrap): (r: Result<Value, Error>)
    ensures key !in st.getters ==> r == Failure(NullPointerException(key))
    ensures key in st.getters ==> (r.Success? <==> Invoke(st.getters[key], st.rec).Success?)
    ensures r.Success? ==> key in st.getters && r.value == Invoke(st.getters[key], st.rec).value
    ensures r.Failure? && key in st.getters ==> r.error == WrapGetterFailure(w, Invoke(st.getters[key], st.rec).error)
  {
    if key !in st.getters then Failure(NullPointerException(key))
    else match Invoke(st.getters[key], st.rec)
      case Success(v) => Success(v)
      case Failure(e) => Failure(WrapGetterFailure(w, e))
  }

  /** `updates.getOrDefault(key, current)`. */
  function Pick(updates: Updates, key: string, current: Value): (r: Value)
    ensures key in updates ==> r == updates[key]
    ensures key !in updates ==> r == current
  {
    if key in updates then updates[key] else current
  }

  /** Every getter named in `names` succeeds on the current record. */
  predicate ReadsSucceed(st: State, names: seq<string>, w: GetterWrap)
  {
    forall i :: 0 <= i < |names| ==> Read(st, names[i], w).Success?
  }

  /** The argument list `transform` hands the constructor: position by position,
      the pending update for that parameter if there is one, else the current
      value its getter reports. */
  function Merged(st: State, names: seq<string>, w: GetterWrap): seq<Value>
    requires ReadsSucceed(st, names, w)
  {
    seq(|names|, i requires 0 <= i < |names| => Pick(st.updates, names[i], Read(st, names[i], w).value))
  }

  /** `e` is what the getter of the first failing parameter raised. */
  ghost predicate FirstReadFailure(st: State, names: seq<string>, w: GetterWrap, e: Error)
  {
    exists i :: 0 <= i < |names| && Read(st, names[i], w) == Failure(e)
      && forall j :: 0 <= j < i ==> Read(st, names[j], w).Success?
  }

  /** The stream over the constructor parameters: for each name in order, run
      its getter (eagerly, as the default argument of `getOrDefault`, so even
      for a name with a pending update), then take the update if present. The
      first getter that throws aborts the whole assembly. */
  function Assemble(st: State, names: seq<string>, w: GetterWrap): (r: Result<seq<Value>, Error>)
    ensures r.Success? <==> ReadsSucceed(st, names, w)
    ensures r.Success? ==> r.value == Merged(st, names, w)
    ensures r.Failure? ==> FirstReadFailure(st, names, w, r.error)
    decreases |names|
  {
    if |names| == 0 then Success([])
    else
      var current :- Read(st, names[0], w);
      var rest :- Assemble(st, names[1..], w);
      Success([Pick(st.updates, names[0], current)] + rest)
  }

  /** `updates.put(key, value)`: the key now maps to the value, whatever it
      mapped to before; every other key and the record are untouched. */
  function Put(st: State, key: string, value: Value): (r: State)
    ensures r.rec == st.rec && r.getters == st.getters
    ensures r.updates.Keys == st.updates.Keys + {key}
    ensures r.updates[key] == value
    ensures forall k :: k in st.updates && k != key ==> r.updates[k] == st.updates[k]
  {
    st.(updates := st.updates[key := value])
  }

  predicate DistinctKeys<V>(entries: seq<(string, V)>)
  {
    forall i, j :: 0 <= i < j < |entries| ==> entries[i].0 != entries[j].0
  }

  /** `Collectors.toMap` over a stream of key/value pairs: a map holding every
      pair, or `IllegalStateException` naming a key that occurs twice. */
  function ToMap<V>(entries: seq<(string, V)>): (r: Result<map<string, V>, Error>)
    ensures r.Success? <==> DistinctKeys(entries)
    ensures r.Success? ==> forall k :: k in r.value <==> exists i :: 0 <= i < |entries| && entries[i].0 == k
    ensures r.Success? ==> forall i :: 0 <= i < |entries| ==> entries[i].0 in r.value && r.value[entries[i].0] == entries[i].1
    ensures r.Failure? ==> r.error.IllegalStateException?
    ensures r.Failure? ==> exists i, j :: 0 <= i < j < |entries| && entries[i].0 == r.error.key && entries[j].0 == r.error.key
    decreases |entries|
  {
    if |entries| == 0 then Success(map[])
    else
      var init := entries[..|entries| - 1];
      var last := entries[|entries| - 1];
      DistinctKeysSnoc(init, last);
      assert entries == init + [last];
      match ToMap(init)
      case Failure(e) => Failure(e)
      case Success(m) =>
        if last.0 in m then Failure(IllegalStateException(last.0))
        else Success(m[last.0 := last.1])
  }

  lemma DistinctKeysSnoc<V>(init: seq<(string, V)>, last: (string, V))
    ensures DistinctKeys(init + [last]) <==>
      DistinctKeys(init) && forall i :: 0 <= i < |init| ==> init[i].0 != last.0
  {
    var s := init + [last];
    assert forall i :: 0 <= i < |init| ==> s[i] == init[i];
    assert s[|init|] == last;
    if DistinctKeys(s) {
      forall i | 0 <= i < |init|
        ensures init[i].0 != last.0
      {
        assert s[i].0 != s[|init|].0;
      }
    }
  }

  /** The getter table maps every component name to that component's accessor. */
  predicate AccessorsInstalled(st: State)
  {
    forall i :: 0 <= i < |st.rec.cls.components| ==>
      st.rec.cls.components[i].name in st.getters
      && st.getters[st.rec.cls.components[i].name] == Accessor(st.rec.cls, i)
  }

  /** The record's values with the pending updates laid over them: the value
      of every updated component replaced, every other one kept. */
  function Overlay(rec: Record, updates: Updates): (vs: seq<Value>)
    requires |rec.values| == |rec.cls.components|
  {
    seq(|rec.values|, i requires 0 <= i < |rec.values| => Pick(updates, rec.cls.components[i].name, rec.values[i]))
  }

  /** With the implicit accessors installed, reading a component's field
      through its getter gives the record's value of that field. */
  lemma ReadsInstalledAccessor(st: State, i: nat, w: GetterWrap)
    requires WellFormed(st.rec) && ImplicitAccessors(st.rec.cls) && AccessorsInstalled(st)
    requires i < |st.rec.cls.components|
    ensures Read(st, Params(st.rec.cls)[i], w) == Success(st.rec.values[i])
  {
    assert st.getters[Params(st.rec.cls)[i]] == Accessor(st.rec.cls, i);
  }

  /** A `put` followed by a `getOrDefault`: the written key reads back the
      written value, and every other key reads what it read before. */
  lemma PickAfterPut(st: State, key: string, value: Value, other: string, current: Value)
    ensures Pick(Put(st, key, value).updates, key, current) == value
    ensures other != key ==> Pick(Put(st, key, value).updates, other, current) == Pick(st.updates, other, current)
  {
  }

  /** With implicit accessors installed, no getter fails and the arguments
      `transform` builds are the record's values with the pending updates laid
      over them. */
  lemma MergedFromCurrent(st: State, w: GetterWrap)
    requires WellFormed(st.rec) && ImplicitAccessors(st.rec.cls) && AccessorsInstalled(st)
    ensures ReadsSucceed(st, Params(st.rec.cls), w)
    ensures Merged(st, Params(st.rec.cls), w) == Overlay(st.rec, st.updates)
  {
    var names := Params(st.rec.cls);
    forall i | 0 <= i < |names|
      ensures Read(st, names[i], w) == Success(st.rec.values[i])
    {
      ReadsInstalledAccessor(st, i, w);
    }
  }
}
