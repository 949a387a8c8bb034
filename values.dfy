/**
 * The decorated value shared by values/key.go, values/source.go, values/time.go and
 * values/meta.go.  In the package a value is an interface; a key, a source or a
 * timestamp is attached by wrapping the value in a struct that embeds it, and
 * `Unwrap` peels one wrapper off.  Here a value is the list of those wrappers,
 * outermost first, over the base value that cannot be unwrapped.
 */
module Values {
  import opened Outcomes

  /**
   * The value types the package names.  Close is the end-of-stream sentinel; it is a
   * constructor of its own here (see README about its numeric tag in the source).
   */
  datatype Type = Unknown | Close | Int | Int64 | String

  const KEY_BOUND: int := 0x1_0000_0000_0000_0000

  /** values.Key is a uint64. */
  type Key = k: int | 0 <= k < 0x1_0000_0000_0000_0000

  /** values.Source is an int: the index of an input among merged inputs. */
  type Source = int

  /** values.Timestamp is an int64 count of nanoseconds. */
  type Timestamp = int

  /** One wrapper struct: keyedValue, valueWithSource or timestampedValue. */
  datatype Layer = Keyed(key: Key) | Sourced(source: Source) | Timed(ts: Timestamp, wm: Timestamp)

  /**
   * A value that cannot be unwrapped: a meta value (values/meta.go), a list of elements
   * of type t (values/list.go), or a value built by values.New or values.NewNull, which
   * are declared in a file that is not part of this model; their payload is kept opaque.
   */
  datatype Base =
    | Meta(t: Type)
    | Plain(t: Type, payload: int)
    | Null(t: Type)
    | Listed(t: Type, elems: seq<Value>)

  /** A value: its wrappers, outermost first, over its base. */
  datatype Value = Value(layers: seq<Layer>, base: Base)

  /** The three kinds of wrapper, for the searches that look for one of them. */
  datatype Kind = KeyKind | SourceKind | TimeKind

  function KindOf(l: Layer): Kind {
    match l
    case Keyed(_) => KeyKind
    case Sourced(_) => SourceKind
    case Timed(_, _) => TimeKind
  }

  /** Type() is promoted through every wrapper from the base value. */
  function TypeOf(v: Value): Type {
    v.base.t
  }

  /** A value is the close sentinel when its type is Close, whatever wraps it. */
  predicate IsClose(v: Value) {
    TypeOf(v) == Close
  }

  /** The close sentinel that SendClose collects: values.NewMeta(values.Close). */
  const CloseValue: Value := Value([], Meta(Close))

  /** IsNull is promoted through every wrapper from the base value. */
  predicate IsNull(v: Value) {
    v.base.Null?
  }

  /** The error a base value returns from Unwrap. */
  function UnwrapError(b: Base): Error {
    match b
    case Meta(_) => Error("meta value cannot be unwrapped")
    case Plain(_, _) => Error("value cannot be unwrapped")
    case Null(_) => Error("value cannot be unwrapped")
    case Listed(_, _) => Error("list cannot be unwrapped")
  }

  /** Unwrap: a wrapper returns the value it embeds; a base value fails. */
  function Unwrap(v: Value): Result<Value> {
    if v.layers == [] then Err(UnwrapError(v.base)) else Ok(Value(v.layers[1..], v.base))
  }

  /** The index of the outermost wrapper of the given kind, if there is one. */
  function FindLayer(layers: seq<Layer>, kind: Kind): (r: Option<nat>)
    ensures r.Some? ==> r.value < |layers| && KindOf(layers[r.value]) == kind
    ensures r.Some? ==> forall j :: 0 <= j < r.value ==> KindOf(layers[j]) != kind
    ensures r.None? <==> forall j :: 0 <= j < |layers| ==> KindOf(layers[j]) != kind
  {
    if layers == [] then None
    else if KindOf(layers[0]) == kind then Some(0)
    else match FindLayer(layers[1..], kind)
      case None => None
      case Some(i) => Some(i + 1)
  }

  /**
   * The value a search for a wrapper of the given kind stops at: the chain from the
   * outermost such wrapper inward, or the error of the base when there is none.
   */
  function Lookup(v: Value, kind: Kind): (r: Result<Value>)
    ensures r.Ok? <==> exists j :: 0 <= j < |v.layers| && KindOf(v.layers[j]) == kind
    ensures r.Ok? ==> r.value.base == v.base && r.value.layers != [] &&
                      KindOf(r.value.layers[0]) == kind &&
                      |r.value.layers| <= |v.layers| &&
                      r.value.layers == v.layers[|v.layers| - |r.value.layers|..] &&
                      forall j :: 0 <= j < |v.layers| - |r.value.layers| ==> KindOf(v.layers[j]) != kind
    ensures r.Err? ==> r.error == UnwrapError(v.base)
  {
    match FindLayer(v.layers, kind)
    case Some(i) => Ok(Value(v.layers[i..], v.base))
    case None => Err(UnwrapError(v.base))
  }

  /**
   * A chain carries at most one wrapper of each kind.  Every chain that the Set
   * functions build from a base value is of this form.
   */
  predicate WellFormed(v: Value) {
    forall i, j :: 0 <= i < j < |v.layers| ==> KindOf(v.layers[i]) != KindOf(v.layers[j])
  }
}
