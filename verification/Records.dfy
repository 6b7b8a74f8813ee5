/**
  The record model the transformers work on: field values, Java types, record
  classes with their components and public methods, record instances, and the
  two reflective entry points the engine calls (invoking an accessor method and
  invoking the canonical constructor).
 */
module Records {
  import opened Wrappers

  /** A field value. The engine only moves values around and never looks inside
      one; the variants exist so that concrete records can be written down. */
  datatype Value = IntV(i: int) | FloatV(f: real) | StrV(s: string) | BoolV(b: bool) | NullV | ObjV(id: nat)

  /** Whatever user code throws: an accessor body or a constructor body. */
  datatype Cause = Cause(tag: string)

  /** A declared Java type: a plain class (primitives included, e.g. `int`),
      a parameterized type such as `List<String>`, or a type variable with its
      erasure bound. */
  datatype JType =
    | ClassType(name: string)
    | Parameterized(raw: string, args: seq<JType>)
    | TypeVariable(varName: string, bound: string)

  /** The `Class` object of a declared type: what `Method.getReturnType` reports. */
  function Erasure(t: JType): (r: JType)
    ensures r.ClassType?
    ensures t.ClassType? ==> r == t
    ensures t.Parameterized? ==> r.name == t.raw
    ensures t.TypeVariable? ==> r.name == t.bound
  {
    match t
    case ClassType(_) => t
    case Parameterized(raw, _) => ClassType(raw)
    case TypeVariable(_, bound) => ClassType(bound)
  }

  /** What a method does when invoked on a record instance: read one of the
      record's own fields (the implicit accessor), return a fixed value, or throw. */
  datatype Body = ReadsField(index: nat) | Returns(v: Value) | Throws(cause: Cause)

  /** A public method of a record class. */
  datatype Method = Method(name: string, arity: nat, returnType: JType, body: Body)

  /** A record component: its name, its declared type and the body of its accessor. */
  datatype Component = Component(name: string, typ: JType, accessor: Body)

  /** A record class: its binary name, its components in declaration order, and
      those of its other public methods that matter to the getter filters. The
      methods inherited from `Object` are not listed: no record component may
      be named `hashCode`, `toString` or `getClass` (section 8.10.1 of the Java
      Language Specification), and `equals(Object)` is left out of the model. */
  datatype RecordClass = RecordClass(name: string, components: seq<Component>, extraMethods: seq<Method>)

  /** A record instance: its class and one value per component, in component
      order. Two records are equal exactly when class and all values are equal. */
  datatype Record = Record(cls: RecordClass, values: seq<Value>)

  /** The canonical constructor's parameter names. A record's canonical
      constructor takes one parameter per component, named after it and in
      component order. */
  function Params(cls: RecordClass): (ps: seq<string>)
    ensures |ps| == |cls.components|
    ensures forall i :: 0 <= i < |ps| ==> ps[i] == cls.components[i].name
  {
    seq(|cls.components|, i requires 0 <= i < |cls.components| => cls.components[i].name)
  }

  /** The accessor method of component `i` (`RecordComponent.getAccessor`). */
  function Accessor(cls: RecordClass, i: nat): Method
    requires i < |cls.components|
  {
    var c := cls.components[i];
    Method(c.name, 0, c.typ, c.accessor)
  }

  /** All accessor methods, in component order. */
  function Accessors(cls: RecordClass): (ms: seq<Method>)
    ensures |ms| == |cls.components|
    ensures forall i :: 0 <= i < |ms| ==> ms[i] == Accessor(cls, i)
  {
    seq(|cls.components|, i requires 0 <= i < |cls.components| => Accessor(cls, i))
  }

  /** `Class.getMethods` restricted to what matters here: the accessors and the
      extra public methods. The order `getMethods` reports is unspecified; this
      model fixes accessors first. */
  function PublicMethods(cls: RecordClass): (ms: seq<Method>)
    ensures |ms| == |cls.components| + |cls.extraMethods|
    ensures forall i :: 0 <= i < |cls.components| ==> ms[i] == Accessor(cls, i)
    ensures forall m :: m in ms <==> m in Accessors(cls) || m in cls.extraMethods
  {
    Accessors(cls) + cls.extraMethods
  }

  /** No two components share a name (the Java compiler guarantees it). */
  predicate DistinctNames(cls: RecordClass)
  {
    forall i, j :: 0 <= i < j < |cls.components| ==> cls.components[i].name != cls.components[j].name
  }

  /** A record instance as the Java language produces it. */
  predicate WellFormed(r: Record)
  {
    |r.values| == |r.cls.components| && DistinctNames(r.cls)
  }

  /** Every accessor is the implicit one, returning its own field. */
  predicate ImplicitAccessors(cls: RecordClass)
  {
    forall i :: 0 <= i < |cls.components| ==> cls.components[i].accessor == ReadsField(i)
  }

  /** How `Method.invoke` can fail: the method body threw (reported as
      `InvocationTargetException`, a `ReflectiveOperationException`), or the call
      itself was malformed — a wrong number of arguments, or a target without
      the field the method reads (`IllegalArgumentException`, which is not a
      `ReflectiveOperationException`). Classes are known by their structure
      only, so a target of another class that has the same shape is accepted. */
  datatype InvokeError = TargetThrew(cause: Cause) | BadArgument

  /** `Method.invoke(target)` with no arguments. */
  function Invoke(m: Method, target: Record): (r: Result<Value, InvokeError>)
    ensures m.arity != 0 ==> r == Failure(BadArgument)
    ensures r.Success? <==> m.arity == 0 && !m.body.Throws? && (m.body.ReadsField? ==> m.body.index < |target.values|)
    ensures r.Success? && m.body.ReadsField? ==> r.value == target.values[m.body.index]
    ensures r.Success? && m.body.Returns? ==> r.value == m.body.v
    ensures r.Failure? && r.error.TargetThrew? <==> m.arity == 0 && m.body.Throws?
    ensures r.Failure? && r.error.TargetThrew? ==> r.error.cause == m.body.cause
  {
    if m.arity != 0 then Failure(BadArgument)
    else match m.body
      case ReadsField(i) => if i < |target.values| then Success(target.values[i]) else Failure(BadArgument)
      case Returns(v) => Success(v)
      case Throws(c) => Failure(TargetThrew(c))
  }

  /** Why a canonical constructor call fails: an argument whose runtime type does
      not convert to the parameter's type (`IllegalArgumentException` from
      `Constructor.newInstance`), or the constructor body threw (wrapped by
      `newInstance` in an `InvocationTargetException`). */
  datatype Rejection = ArgumentMismatch | BodyThrew(cause: Cause)

  datatype Construction = Accepted | Rejected(why: Rejection)

  /** The canonical constructor of one record class, left abstract: given the
      full ordered argument list, it either accepts (and the new record holds
      exactly those arguments as its values) or rejects. */
  type Constructor = seq<Value> -> Construction
}
