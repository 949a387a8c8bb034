/**
 * values.go: the value types of the package-level revision.  A value is an int64 or a
 * typed null; NewValue builds one from a Go integer of any signed width, and the
 * accessors panic when the value is not of the type asked for.
 */
module LegacyValues {
  import opened Outcomes

  /** The value types, numbered from 0 by iota. */
  datatype Type = Int | Float | Bool | String

  /** The number iota gives each type, which is what `%v` prints for it. */
  function TypeNumber(t: Type): nat {
    match t
    case Int => 0
    case Float => 1
    case Bool => 2
    case String => 3
  }

  type Int8 = x: int | -0x80 <= x < 0x80
  type Int16 = x: int | -0x8000 <= x < 0x8000
  type Int32 = x: int | -0x8000_0000 <= x < 0x8000_0000
  type Int64 = x: int | -0x8000_0000_0000_0000 <= x < 0x8000_0000_0000_0000

  /** Go's int64 arithmetic: the exact result wrapped around into 64-bit two's complement. */
  function Wrap64(x: int): (r: Int64)
    ensures -0x8000_0000_0000_0000 <= x < 0x8000_0000_0000_0000 ==> r == x
    ensures (r - x) % 0x1_0000_0000_0000_0000 == 0
  {
    (x + 0x8000_0000_0000_0000) % 0x1_0000_0000_0000_0000 - 0x8000_0000_0000_0000
  }

  /** A value: intValue holds an int64, nullValue only its type. */
  datatype Value = IntValue(v: Int64) | NullValue(t: Type)

  /** What Get returns, as an `interface{}`: nil, or an int64. */
  datatype Any = Nil | AnyInt64(x: Int64)

  /** Value.Type: an int value is of type Int; a null keeps the type it was made with. */
  function TypeOf(v: Value): (t: Type)
    ensures v.IntValue? ==> t == Int
    ensures v.NullValue? ==> t == v.t
  {
    match v
    case IntValue(_) => Int
    case NullValue(t) => t
  }

  /** Value.Get: nil exactly for a null, and otherwise the int64 held. */
  function Get(v: Value): (r: Any)
    ensures r == Nil <==> v.NullValue?
    ensures v.IntValue? ==> r == AnyInt64(v.v)
  {
    match v
    case IntValue(x) => AnyInt64(x)
    case NullValue(_) => Nil
  }

  /** Value.IsNull: true exactly when Get returns nil. */
  predicate IsNull(v: Value): (b: bool)
    ensures b <==> Get(v) == Nil
  {
    v.NullValue?
  }

  // ---------------------------------------------------------------------------
  // strconv.FormatInt(x, 10).

  function DigitChar(d: nat): char
    requires d < 10
  {
    (d + '0' as int) as char
  }

  predicate IsDigit(c: char) {
    '0' <= c <= '9'
  }

  function DigitValue(c: char): nat
    requires IsDigit(c)
  {
    c as int - '0' as int
  }

  /** The base-10 digits of n, most significant first, with no leading zero. */
  function FormatNat(n: nat): string
    decreases n
  {
    if n < 10 then [DigitChar(n)] else FormatNat(n / 10) + [DigitChar(n % 10)]
  }

  /** FormatInt(x, 10): a minus sign for a negative number, then the digits of its magnitude. */
  function FormatInt(x: int): string {
    if x < 0 then "-" + FormatNat(-x) else FormatNat(x)
  }

  /** The number a non-empty string of digits denotes. */
  function ParseNat(s: string): nat
    requires forall i :: 0 <= i < |s| ==> IsDigit(s[i])
  {
    if s == [] then 0 else ParseNat(s[..|s| - 1]) * 10 + DigitValue(s[|s| - 1])
  }

  /** The inverse of FormatInt on what it prints. */
  function ParseInt(s: string): int
    requires s != [] && forall i :: 0 <= i < |s| ==> IsDigit(s[i]) || (i == 0 && s[i] == '-')
  {
    if s[0] == '-' then 0 - ParseNat(s[1..]) else ParseNat(s)
  }

  /** FormatNat prints only digits, has no leading zero, and reads back as n. */
  lemma {:induction false} FormatNatRoundTrip(n: nat)
    ensures var s := FormatNat(n);
      && s != []
      && (forall i :: 0 <= i < |s| ==> IsDigit(s[i]))
      && (n > 0 ==> s[0] != '0')
      && ParseNat(s) == n
    decreases n
  {
    if n >= 10 {
      FormatNatRoundTrip(n / 10);
      var s := FormatNat(n);
      var p := FormatNat(n / 10);
      assert s[..|s| - 1] == p;
      assert s[0] == p[0];
    }
  }

  /** A printed int reads back as the same int: FormatInt loses nothing. */
  lemma FormatIntRoundTrip(x: int)
    ensures FormatInt(x) != []
    ensures forall i :: 0 <= i < |FormatInt(x)| ==> IsDigit(FormatInt(x)[i]) || (i == 0 && FormatInt(x)[i] == '-')
    ensures ParseInt(FormatInt(x)) == x
    ensures (FormatInt(x)[0] == '-') <==> x < 0
  {
    if x < 0 {
      FormatNatRoundTrip(-x);
      assert FormatInt(x)[1..] == FormatNat(-x);
    } else {
      FormatNatRoundTrip(x);
    }
  }

  /** Value.String: "nil" for a null, the base-10 number otherwise. */
  function Show(v: Value): (s: string)
    ensures v.NullValue? ==> s == "nil"
    ensures v.IntValue? ==> s != [] && forall i :: 0 <= i < |s| ==> IsDigit(s[i]) || (i == 0 && s[i] == '-')
    ensures v.IntValue? ==> ParseInt(s) == v.v
  {
    match v
    case IntValue(x) =>
      assert FormatInt(x) != [] && ParseInt(FormatInt(x)) == x by { FormatIntRoundTrip(x); }
      FormatInt(x)
    case NullValue(_) => "nil"
  }

  /** The panic message of AssertType. */
  function TypeMismatch(v: Value, t: Type): string {
    "value " + Show(v) + ":" + FormatInt(TypeNumber(TypeOf(v))) + " is not of type " + FormatInt(TypeNumber(t))
  }

  /** AssertType panics exactly when the value is not of the given type. */
  function AssertType(v: Value, t: Type): (r: Fatal<()>)
    ensures r.Panicked? <==> TypeOf(v) != t
    ensures r.Panicked? ==> r.reason == TypeMismatch(v, t)
  {
    if TypeOf(v) != t then Panicked(TypeMismatch(v, t)) else Returned(())
  }


  /**
   * GetInt: the int64 of an int value.  Any other type fails AssertType; a null of type
   * Int passes it, and then the conversion of its nil payload panics.
   */
  function GetInt(v: Value): (r: Fatal<Int64>)
    ensures r.Returned? <==> v.IntValue?
    ensures v.IntValue? ==> r.value == v.v
    ensures v.NullValue? && v.t != Int ==> r == Panicked(TypeMismatch(v, Int))
  {
    match AssertType(v, Int)
    case Panicked(why) => Panicked(why)
    case Returned(_) =>
      match Get(v)
      case AnyInt64(x) => Returned(x)
      case Nil => Panicked(NilConversion("int64"))
  }

  /** The panic of a type assertion `.(goType)` on a nil interface. */
  function NilConversion(goType: string): string {
    "interface conversion: interface {} is nil, not " + goType
  }

  /**
   * GetFloat, GetBool, GetString: no float, bool or string value exists in this revision,
   * so a value of the type asked for is a null, and converting its nil payload panics.
   * Every call panics.
   */
  function GetFloat(v: Value): (r: Fatal<real>)
    ensures r.Panicked?
    ensures r.reason == if TypeOf(v) != Float then TypeMismatch(v, Float) else NilConversion("float64")
  {
    match AssertType(v, Float)
    case Panicked(why) => Panicked(why)
    case Returned(_) =>
      match Get(v)
      case Nil => Panicked(NilConversion("float64"))
      case AnyInt64(_) => Panicked(NilConversion("float64"))
  }

  function GetBool(v: Value): (r: Fatal<bool>)
    ensures r.Panicked?
    ensures r.reason == if TypeOf(v) != Bool then TypeMismatch(v, Bool) else NilConversion("bool")
  {
    match AssertType(v, Bool)
    case Panicked(why) => Panicked(why)
    case Returned(_) =>
      match Get(v)
      case Nil => Panicked(NilConversion("bool"))
      case AnyInt64(_) => Panicked(NilConversion("bool"))
  }

  function GetString(v: Value): (r: Fatal<string>)
    ensures r.Panicked?
    ensures r.reason == if TypeOf(v) != String then TypeMismatch(v, String) else NilConversion("string")
  {
    match AssertType(v, String)
    case Panicked(why) => Panicked(why)
    case Returned(_) =>
      match Get(v)
      case Nil => Panicked(NilConversion("string"))
      case AnyInt64(_) => Panicked(NilConversion("string"))
  }

  /** The dynamic value handed to NewValue: nil, an integer of one of Go's signed widths, or anything else. */
  datatype GoValue =
    | GoNil
    | GoInt(i: Int64)
    | GoInt8(i8: Int8)
    | GoInt16(i16: Int16)
    | GoInt32(i32: Int32)
    | GoInt64(i64: Int64)
    | GoOther(typeName: string)

  /** The number a Go integer holds, whatever its width. */
  function Number(g: GoValue): int
    requires !g.GoNil? && !g.GoOther?
  {
    match g
    case GoInt(x) => x
    case GoInt8(x) => x
    case GoInt16(x) => x
    case GoInt32(x) => x
    case GoInt64(x) => x
  }

  const NIL_VALUE := "cannot create value from nil"
  const BAD_TYPE := "cannot create value from type "

  /** NewValue: an integer of any signed width becomes an int value holding the same number; nil and every other type panic. */
  function NewValue(g: GoValue): (r: Fatal<Value>)
    ensures r.Returned? <==> !g.GoNil? && !g.GoOther?
    ensures r.Returned? ==> r.value == IntValue(Number(g)) && TypeOf(r.value) == Int && !IsNull(r.value)
    ensures g.GoNil? ==> r == Panicked(NIL_VALUE)
    ensures g.GoOther? ==> r == Panicked(BAD_TYPE + g.typeName)
  {
    match g
    case GoNil => Panicked(NIL_VALUE)
    case GoInt(x) => Returned(IntValue(x))
    case GoInt8(x) => Returned(IntValue(x))
    case GoInt16(x) => Returned(IntValue(x))
    case GoInt32(x) => Returned(IntValue(x))
    case GoInt64(x) => Returned(IntValue(x))
    case GoOther(name) => Panicked(BAD_TYPE + name)
  }

  /** GetInt undoes NewValue: the number put in is the number read back. */
  lemma NewValueGetInt(g: GoValue)
    requires !g.GoNil? && !g.GoOther?
    ensures NewValue(g).Returned? && GetInt(NewValue(g).value) == Returned(Number(g))
  {
  }

  /** NewNull(t): a null of type t, whose Get is nil and which prints as "nil". */
  function NewNull(t: Type): (r: Value)
    ensures TypeOf(r) == t && IsNull(r) && Get(r) == Nil && Show(r) == "nil"
  {
    NullValue(t)
  }

  /** An int value is not null, has type Int, holds its number, and prints in base 10 so that the number reads back. */
  lemma IntValueShows(x: Int64)
    ensures !IsNull(IntValue(x)) && TypeOf(IntValue(x)) == Int && Get(IntValue(x)) == AnyInt64(x)
    ensures var s := Show(IntValue(x));
      && s != []
      && (forall i :: 0 <= i < |s| ==> IsDigit(s[i]) || (i == 0 && s[i] == '-'))
      && ParseInt(s) == x
  {
    FormatIntRoundTrip(x);
  }
}
