/** values/meta.go: meta values, which carry only a type; the close sentinel is one. */
module ValuesMeta {
  import opened Outcomes
  import opened Values

  /** NewMeta: a value of the given type with no payload and no wrapper. */
  function NewMeta(t: Type): (r: Value)
    ensures TypeOf(r) == t
    ensures !IsNull(r)
    ensures Unwrap(r) == Err(Error("meta value cannot be unwrapped"))
  {
    Value([], Meta(t))
  }

  /** meta.Clone: a new meta value of the same type. */
  function CloneMeta(m: Base): (r: Base)
    requires m.Meta?
    ensures r.Meta? && r.t == m.t
  {
    Meta(m.t)
  }

  /** meta.Get panics: a meta value has no payload. */
  function Get(v: Value): (r: Fatal<int>)
    requires v.base.Meta?
    ensures r.Panicked?
  {
    Panicked("cannot return interface{} from meta value")
  }

  /** meta.Int, Bool, Int64 and the other primitive accessors all panic. */
  function Primitive(v: Value): (r: Fatal<int>)
    requires v.base.Meta?
    ensures r.Panicked?
  {
    Panicked("cannot return primitive type from meta value")
  }

  /**
   * Every search down a chain stops at a meta base: a chain over a meta value that has
   * no wrapper of the kind looked for fails with the meta value's Unwrap error.
   */
  lemma SearchStopsAtMeta(v: Value, kind: Kind)
    requires v.base.Meta?
    requires forall j :: 0 <= j < |v.layers| ==> KindOf(v.layers[j]) != kind
    ensures Lookup(v, kind) == Err(Error("meta value cannot be unwrapped"))
  {
  }

  /** The close sentinel that SendClose sends is a meta value of type Close. */
  lemma CloseSentinel()
    ensures CloseValue == NewMeta(Close) && IsClose(CloseValue)
  {
  }
}
