/**
 Conversions between a node value and a double, as used by events and by the
 latest-value store.
 */
module EdgeValue {
  import opened EdgeTypes

  function Truncate(r: real): int {
    if r >= 0.0 then r.Floor else -((-r).Floor)
  }

  function ToWord(x: int): Word { x % 0x1_0000 }

  // Two's complement.
  function SignedWord(w: Word): (i: Int16)
    ensures i == w || i == w - 65536
  {
    if w < 0x8000 then w else w - 0x1_0000
  }

  function ToInt16(x: int): Int16 { SignedWord(ToWord(x)) }

  function ToUInt32(x: int): UInt32 { x % 0x1_0000_0000 }

  function ToInt32(x: int): Int32 {
    var u := ToUInt32(x);
    if u < 0x8000_0000 then u else u - 0x1_0000_0000
  }

  function AsDouble(v: Value): Double {
    match v
    case BoolV(b) => Finite(if b then 1.0 else 0.0)
    case Int16V(i) => Finite(i as real)
    case Int32V(i) => Finite(i as real)
    case UInt32V(u) => Finite(u as real)
    case DoubleV(d) => d
  }

  // The union after a memset to zero, read as type t.
  function ZeroValue(t: DataType): (v: Value)
    ensures t != Unset ==> TypeOf(v) == t
    ensures AsDouble(v) == Finite(0.0)
  {
    match t
    case Unset => BoolV(false)
    case Bool => BoolV(false)
    case Int16Type => Int16V(0)
    case Int32Type => Int32V(0)
    case UInt32Type => UInt32V(0)
    case DoubleType => DoubleV(Finite(0.0))
  }

  function FromDouble(t: DataType, d: Double): (v: Value)
    ensures t != Unset ==> TypeOf(v) == t
    ensures t != DoubleType && !d.Finite? ==> v == ZeroValue(t)
  {
    if !d.Finite? then
      if t == DoubleType then DoubleV(d) else ZeroValue(t)
    else
      match t
      case Unset => ZeroValue(t)
      case Bool => BoolV(d.r != 0.0)
      case Int16Type => Int16V(ToInt16(Truncate(d.r)))
      case Int32Type => Int32V(ToInt32(Truncate(d.r)))
      case UInt32Type => UInt32V(ToUInt32(Truncate(d.r)))
      case DoubleType => DoubleV(d)
  }

  // The double of a value is the number it stands for, with true as 1.
  lemma AsDoubleIsNumber(v: Value)
    ensures v.BoolV? ==> AsDouble(v) == Finite(if v.b then 1.0 else 0.0)
    ensures v.Int16V? ==> AsDouble(v) == Finite(v.i16 as real)
    ensures v.Int32V? ==> AsDouble(v) == Finite(v.i32 as real)
    ensures v.UInt32V? ==> AsDouble(v) == Finite(v.u32 as real)
    ensures v.DoubleV? ==> AsDouble(v) == v.d
  {
  }

  // The integer next to d on the side of zero.
  ghost predicate TowardZero(i: int, d: real) {
    if d >= 0.0 then i as real <= d < i as real + 1.0 else i as real - 1.0 < d <= i as real
  }

  // A finite double becomes the integer next to it on the side of zero, in the range of the
  // type; a bool is whether it is not zero, and a double is kept.
  lemma FromFinite(d: real)
    ensures FromDouble(Bool, Finite(d)) == BoolV(d != 0.0)
    ensures -32769.0 < d < 32768.0 ==> TowardZero(FromDouble(Int16Type, Finite(d)).i16, d)
    ensures -2147483649.0 < d < 2147483648.0 ==> TowardZero(FromDouble(Int32Type, Finite(d)).i32, d)
    ensures -1.0 < d < 4294967296.0 ==> TowardZero(FromDouble(UInt32Type, Finite(d)).u32, d)
    ensures FromDouble(DoubleType, Finite(d)) == DoubleV(Finite(d))
  {
    var i := Truncate(d);
    assert TowardZero(i, d);
    assert -32769.0 < d < 32768.0 ==> -0x8000 <= i < 0x8000;
    assert -2147483649.0 < d < 2147483648.0 ==> -0x8000_0000 <= i < 0x8000_0000;
    assert -1.0 < d < 4294967296.0 ==> 0 <= i < 0x1_0000_0000;
    hide Truncate;
  }

  // What is not finite becomes zero, except in a double.
  lemma FromNonFinite(t: DataType, d: Double)
    requires !d.Finite? && t != Unset
    ensures if t == DoubleType then FromDouble(t, d) == DoubleV(d) else AsDouble(FromDouble(t, d)) == Finite(0.0)
  {
  }

  lemma TruncateInt(i: int)
    ensures Truncate(i as real) == i
  {
    if i < 0 {
      assert (-(i as real)) == ((-i) as real);
    }
  }

  // Writing a value out as a double and reading it back loses nothing, for every type.
  lemma DoubleRoundTrip(v: Value)
    ensures FromDouble(TypeOf(v), AsDouble(v)) == v
  {
    match v
    case BoolV(_) =>
    case Int16V(i) => TruncateInt(i);
    case Int32V(i) => TruncateInt(i);
    case UInt32V(u) => TruncateInt(u);
    case DoubleV(_) =>
  }
}
