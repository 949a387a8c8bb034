/** values/list.go: a list value holding elements of one declared type. */
module ValuesList {
  import opened Outcomes
  import opened Values

  /** The error AddValue returns for an element of another type; fmt's rendering of the types is not modelled. */
  function TypeMismatch(want: Type, got: Type): Error {
    Error("unexpected type, want %v, got %v")
  }

  class List {
    const t: Type
    var vs: seq<Value>

    /** Every element has the list's type: AddValue is the only way in. */
    ghost predicate Valid()
      reads this
    {
      forall i :: 0 <= i < |vs| ==> TypeOf(vs[i]) == t
    }

    /** NewList: an empty list of the given type. */
    constructor (t: Type)
      ensures this.t == t && vs == [] && Valid()
    {
      this.t := t;
      vs := [];
    }

    /** Type: the declared element type, whatever the list holds. */
    function Type(): (r: Type)
      ensures r == t
    {
      t
    }

    /** GetValues (and Get): the elements, in insertion order. */
    function GetValues(): (r: seq<Value>)
      reads this
      requires Valid()
      ensures forall i :: 0 <= i < |r| ==> TypeOf(r[i]) == Type()
      ensures r == vs
    {
      vs
    }

    /**
     * AddValue: an element of another type is refused with an error and the list is
     * unchanged; an element of the list's type is appended at the end.
     */
    method AddValue(v: Value) returns (err: Option<Error>)
      requires Valid()
      modifies this
      ensures Valid()
      ensures TypeOf(v) != t ==> err == Some(TypeMismatch(t, TypeOf(v))) && vs == old(vs)
      ensures TypeOf(v) == t ==> err == None && vs == old(vs) + [v]
    {
      if TypeOf(v) != t {
        return Some(TypeMismatch(t, TypeOf(v)));
      }
      vs := vs + [v];
      return None;
    }

    /** Clone: a new list of the same type, refilled by adding each element in order. */
    method Clone() returns (cl: List)
      requires Valid()
      ensures fresh(cl) && cl.Valid()
      ensures cl.t == t && cl.vs == vs
    {
      cl := new List(t);
      for i := 0 to |vs|
        invariant cl.Valid() && cl.t == t
        invariant cl.vs == vs[..i]
      {
        var _ := cl.AddValue(vs[i]);
        assert vs[..i + 1] == vs[..i] + [vs[i]];
      }
      assert vs[..|vs|] == vs;
    }

    /** The list as a value of the package: no wrapper, over a list base of its type and elements. */
    function AsValue(): (r: Value)
      reads this
      ensures r.layers == [] && r.base.Listed? && r.base.elems == vs
      ensures TypeOf(r) == t && !Values.IsNull(r)
    {
      Value([], Listed(t, vs))
    }

    /** A list cannot be unwrapped; Unwrap of the list as a value gives the same error. */
    function Unwrap(): (r: Result<Value>)
      reads this
      ensures r == Err(Error("list cannot be unwrapped"))
      ensures r == Values.Unwrap(AsValue())
    {
      Err(Error("list cannot be unwrapped"))
    }

    /** A list is never null. */
    predicate IsNull()
      ensures !IsNull()
    {
      false
    }
  }

  /**
   * Every search down a chain stops at a list base: a chain over a list that has no
   * wrapper of the kind looked for fails with the list's Unwrap error.
   */
  lemma SearchStopsAtList(v: Value, kind: Kind)
    requires v.base.Listed?
    requires forall j :: 0 <= j < |v.layers| ==> KindOf(v.layers[j]) != kind
    ensures Lookup(v, kind) == Err(Error("list cannot be unwrapped"))
  {
  }
}
