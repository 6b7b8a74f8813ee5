/**
  The `with(getter).as(value)` step. `with` derives a field name from a getter
  reference and returns a partial transformation bound to the transformer;
  `as` completes it by putting one pending update.
 */
module PartialTransformation {
  import opened Records
  import opened Engine

  /** A typed field handle: an opaque token standing for a getter reference,
      carrying the name of the field it refers to. */
  datatype Handle = Handle(field: string)

  /** The transformer it was created from and the key it will write; both are
      fixed when it is created. */
  datatype Partial = Partial(wrapper: State, key: string)

  /** `as(value)`: put `(key, value)` into the owning transformer's pending
      updates and hand that transformer back for chaining. An earlier update of
      the same key is overwritten; nothing else changes. */
  function As(p: Partial, value: Value): (r: State)
    ensures r.rec == p.wrapper.rec && r.getters == p.wrapper.getters
    ensures r.updates.Keys == p.wrapper.updates.Keys + {p.key}
    ensures r.updates[p.key] == value
    ensures forall k :: k in p.wrapper.updates && k != p.key ==> r.updates[k] == p.wrapper.updates[k]
  {
    Put(p.wrapper, p.key, value)
  }
}
