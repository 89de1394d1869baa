/**
 How a node value becomes one or two holding registers and back: two's
 complement, high word first, and doubles as scaled signed 16-bit integers.
 */
module RegisterCodec {
  import opened EdgeTypes
  import opened EdgeValue

  function Width(t: DataType): nat {
    if t == Int32Type || t == UInt32Type then 2 else 1
  }

  // A zero scale stands for 1.
  function EffectiveScale(s: Double): Double {
    if s == Finite(0.0) then Finite(1.0) else s
  }

  // Product of a signed word and a scale.
  function Times(i: int, s: Double): Double {
    match s
    case Finite(r) => Finite(i as real * r)
    case NaN => NaN
    case PosInf => if i == 0 then NaN else if i > 0 then PosInf else NegInf
    case NegInf => if i == 0 then NaN else if i > 0 then NegInf else PosInf
  }

  // Quotient by a scale that is not zero.
  function Over(d: Double, s: Double): Double
    requires s != Finite(0.0)
  {
    if d.NaN? || s.NaN? then NaN
    else if !s.Finite? then (if d.Finite? then Finite(0.0) else NaN)
    else if d.Finite? then Finite(d.r / s.r)
    else if s.r > 0.0 then d
    else if d.PosInf? then NegInf else PosInf
  }

  function RoundHalfAway(r: real): int {
    Truncate(if r >= 0.0 then r + 0.5 else r - 0.5)
  }

  function HighWord(u: UInt32): Word { u / 0x1_0000 }

  function LowWord(u: UInt32): Word { u % 0x1_0000 }

  function Join(high: int, low: int): UInt32
    requires 0 <= high < 0x1_0000 && 0 <= low < 0x1_0000
  {
    high * 0x1_0000 + low
  }

  function Decode(t: DataType, scale: Double, words: seq<Word>): (v: Value)
    requires |words| == Width(t)
    ensures t != Unset ==> TypeOf(v) == t
  {
    match t
    case Unset => BoolV(false)
    case Bool => BoolV(words[0] % 2 == 1)
    case Int16Type => Int16V(SignedWord(words[0]))
    case Int32Type => Int32V(ToInt32(Join(words[0], words[1])))
    case UInt32Type => UInt32V(Join(words[0], words[1]))
    case DoubleType => DoubleV(Times(SignedWord(words[0]), EffectiveScale(scale)))
  }

  function PackDouble(scale: Double, d: Double): Word {
    var engineering := Over(d, EffectiveScale(scale));
    if !engineering.Finite? then 0 else ToWord(RoundHalfAway(engineering.r))
  }

  function Pack(scale: Double, v: Value): (words: seq<Word>)
    ensures |words| == Width(TypeOf(v))
  {
    match v
    case BoolV(b) => [if b then 1 else 0]
    case Int16V(i) => [ToWord(i)]
    case Int32V(i) => [HighWord(ToUInt32(i)), LowWord(ToUInt32(i))]
    case UInt32V(u) => [HighWord(u), LowWord(u)]
    case DoubleV(d) => [PackDouble(scale, d)]
  }

  // The value a register round trip leaves: what a client write becomes once polled back.
  function Quantise(scale: Double, v: Value): (q: Value)
    ensures TypeOf(q) == TypeOf(v)
  {
    Decode(TypeOf(v), scale, Pack(scale, v))
  }

  // ---- Integers ---------------------------------------------------------

  lemma SplitJoin(u: UInt32)
    ensures Join(HighWord(u), LowWord(u)) == u
  {
  }

  lemma JoinSplit(high: Word, low: Word)
    ensures HighWord(Join(high, low)) == high && LowWord(Join(high, low)) == low
  {
  }

  lemma SignedUnsigned(i: Int32, u: UInt32)
    ensures ToInt32(ToUInt32(i)) == i && ToUInt32(ToInt32(u)) == u
  {
  }

  lemma IntegerRoundTrip(scale: Double, v: Value)
    requires !v.DoubleV?
    ensures Quantise(scale, v) == v
  {
    match v
    case BoolV(_) =>
    case Int16V(_) =>
    case Int32V(i) =>
      SplitJoin(ToUInt32(i));
      SignedUnsigned(i, 0);
    case UInt32V(u) =>
      SplitJoin(u);
  }

  // The layout on the wire: 32 bits high word first, two's complement, bools as 0 or 1.
  lemma WireLayout(scale: Double, v: Value, high: Word, low: Word)
    ensures v.UInt32V? ==> Pack(scale, v)[0] as int * 0x1_0000 + Pack(scale, v)[1] as int == v.u32
    ensures v.Int32V? ==>
      Pack(scale, v)[0] as int * 0x1_0000 + Pack(scale, v)[1] as int ==
        (if v.i32 < 0 then v.i32 + 0x1_0000_0000 else v.i32)
    ensures v.Int16V? ==> Pack(scale, v)[0] as int == (if v.i16 < 0 then v.i16 + 0x1_0000 else v.i16)
    ensures v.BoolV? ==> Pack(scale, v)[0] == (if v.b then 1 else 0)
    ensures Decode(UInt32Type, scale, [high, low]) == UInt32V(high as int * 0x1_0000 + low as int)
  {
    hide HighWord, LowWord, PackDouble, Times;
    match v
    case UInt32V(u) => SplitJoin(u);
    case Int32V(i) => SplitJoin(ToUInt32(i));
    case _ =>
  }

  lemma RoundInt(i: int)
    ensures RoundHalfAway(i as real) == i
  {
    if i >= 0 {
      assert (i as real + 0.5).Floor == i;
    } else {
      assert -(i as real - 0.5) == (-i) as real + 0.5;
      assert ((-i) as real + 0.5).Floor == -i;
    }
  }

  lemma DivideBack(i: int, s: real)
    requires s != 0.0
    ensures (i as real * s) / s == i as real
  {
  }

  // The words a decode and re-pack reproduce, exactly: every word, except that a bool
  // keeps only bit 0 and that a scale that is not finite keeps only the word 0.
  lemma DecodePack(t: DataType, scale: Double, words: seq<Word>)
    requires |words| == Width(t) && t != Unset
    ensures Pack(scale, Decode(t, scale, words)) == words
        <==> (t == Bool ==> words[0] < 2) && (t == DoubleType ==> scale.Finite? || words[0] == 0)
  {
    hide HighWord, LowWord, PackDouble, Times, EffectiveScale, Steps;
    match t
    case Bool => assert words == [words[0]];
    case Int16Type => assert words == [words[0]];
    case Int32Type =>
      assert words == [words[0], words[1]];
      JoinSplit(words[0], words[1]);
      SignedUnsigned(0, Join(words[0], words[1]));
    case UInt32Type =>
      assert words == [words[0], words[1]];
      JoinSplit(words[0], words[1]);
    case DoubleType =>
      assert words == [words[0]];
      if scale.Finite? {
        DecodesSteps(scale.r, words[0]);
        DecodePackDouble(scale.r, words[0]);
      } else {
        DecodePackNonFinite(scale, words[0]);
      }
  }

  // For example, a bool register that holds 2 is written back as 0.
  lemma BoolWordChanges()
    ensures Pack(Finite(1.0), Decode(Bool, Finite(1.0), [2])) == [0]
  {
  }

  lemma DecodePackNonFinite(scale: Double, w: Word)
    requires !scale.Finite?
    ensures PackDouble(scale, Times(SignedWord(w), EffectiveScale(scale))) == 0
  {
  }

  // The step between neighbouring values of a node: its scale, or 1.
  function StepOf(scale: real): real { if scale == 0.0 then 1.0 else scale }

  lemma TimesFinite(i: int, s: real)
    ensures Times(i, Finite(s)) == Finite(i as real * s)
    ensures Times(i, Finite(1.0)) == Finite(i as real)
  {
  }

  // A double register holds a signed number of scale steps; a scale of zero stands for 1.
  lemma DecodesScaled(s: real, w: Word)
    ensures s != 0.0 ==> Decode(DoubleType, Finite(s), [w]) == DoubleV(Finite(SignedWord(w) as real * s))
    ensures s == 0.0 ==> Decode(DoubleType, Finite(s), [w]) == DoubleV(Finite(SignedWord(w) as real))
  {
    hide Times, SignedWord;
    TimesFinite(SignedWord(w), s);
  }

  // i steps of the scale.
  function Steps(i: int, scale: real): real { if scale == 0.0 then i as real else i as real * scale }

  lemma DecodesSteps(scale: real, w: Word)
    ensures Decode(DoubleType, Finite(scale), [w]) == DoubleV(Finite(Steps(SignedWord(w), scale)))
  {
    hide Times, SignedWord;
    TimesFinite(SignedWord(w), scale);
  }

  // Under a scale that is not finite only the sign of the word counts.
  lemma DecodesNonFinite(w: Word)
    ensures Decode(DoubleType, NaN, [w]) == DoubleV(NaN)
    ensures Decode(DoubleType, PosInf, [w])
      == DoubleV(if SignedWord(w) == 0 then NaN else if SignedWord(w) > 0 then PosInf else NegInf)
    ensures Decode(DoubleType, NegInf, [w])
      == DoubleV(if SignedWord(w) == 0 then NaN else if SignedWord(w) > 0 then NegInf else PosInf)
  {
  }

  // The other types: bit 0, two's complement, and high word first.
  lemma DecodesInteger(scale: Double, high: Word, low: Word)
    ensures Decode(Bool, scale, [high]) == BoolV(high % 2 == 1)
    ensures Decode(Int16Type, scale, [high]) == Int16V(SignedWord(high))
    ensures Decode(Int32Type, scale, [high, low]) == Int32V(SignedWord(high) * 65536 + low)
    ensures Decode(UInt32Type, scale, [high, low]) == UInt32V(high * 65536 + low)
  {
  }

  function Abs(r: real): real { if r < 0.0 then -r else r }

  // The nearest integer, and of two the one further from zero.
  ghost predicate RoundsTo(q: real, n: int) {
    && Abs(n as real - q) <= 0.5
    && (Abs(n as real - q) == 0.5 ==> Abs(n as real) > Abs(q))
  }

  lemma RoundsHalfAway(q: real, n: int)
    ensures RoundsTo(q, n) <==> n == RoundHalfAway(q)
  {
  }

  // A finite double is sent as the rounding of its number of scale steps, modulo 65536.
  lemma PacksScaled(s: real, x: real, n: int)
    requires RoundsTo(if s == 0.0 then x else x / s, n)
    ensures PackDouble(Finite(s), Finite(x)) == n % 65536
  {
    hide RoundHalfAway, RoundsTo;
    RoundsHalfAway(if s == 0.0 then x else x / s, n);
    assert x / 1.0 == x;
  }

  lemma DecodePackDouble(scale: real, w: Word)
    ensures PackDouble(Finite(scale), Finite(Steps(SignedWord(w), scale))) == w
  {
    var i: int := SignedWord(w);
    StepsBack(i, scale);
    RoundInt(i);
    RoundsHalfAway(i as real, i);
    assert i % 65536 == w;
    hide RoundHalfAway, Steps, SignedWord, RoundsTo;
    PacksScaled(scale, Steps(i, scale), i);
  }

  lemma StepsBack(i: int, scale: real)
    ensures (if scale == 0.0 then Steps(i, scale) else Steps(i, scale) / scale) == i as real
  {
    if scale == 0.0 {
      assert i as real * 1.0 == i as real;
    } else {
      DivideBack(i, scale);
    }
  }

  // A second round trip changes nothing, for every type, scale and value.
  lemma QuantiseIdempotent(scale: Double, v: Value)
    ensures Quantise(scale, Quantise(scale, v)) == Quantise(scale, v)
  {
    if v.DoubleV? {
      DecodePack(DoubleType, scale, Pack(scale, v));
      if !scale.Finite? {
        assert PackDouble(scale, v.d) == 0;
      }
    } else {
      IntegerRoundTrip(scale, v);
    }
  }

  // ---- Scaled doubles ---------------------------------------------------

  // The quotient that the packer rounds.
  function Quotient(scale: real, x: real): real { x / StepOf(scale) }

  ghost predicate InRange(scale: real, x: real) {
    -32768.5 < Quotient(scale, x) < 32767.5
  }

  // Half-away rounding is the nearest integer.
  lemma RoundNearest(q: real)
    ensures Abs(RoundHalfAway(q) as real - q) <= 0.5
    ensures -32768.5 < q < 32767.5 ==> -32768 <= RoundHalfAway(q) <= 32767
  {
  }

  lemma RoundMonotone(p: real, q: real)
    requires p <= q
    ensures RoundHalfAway(p) <= RoundHalfAway(q)
  {
  }

  lemma ScaleError(d: real, s: real, e: real)
    requires Abs(d) <= 0.5 && e == d * s
    ensures Abs(e) <= Abs(s) / 2.0
  {
    if s >= 0.0 {
      assert d * s <= 0.5 * s && -0.5 * s <= d * s;
    } else {
      assert d * s <= -0.5 * s && 0.5 * s <= d * s;
    }
  }

  // Outside the 16-bit range the packed word still is the rounding, modulo 65536;
  // inside it, the word read as signed is the rounding itself.
  lemma PackRounds(scale: real, x: real)
    ensures PackDouble(Finite(scale), Finite(x)) == RoundHalfAway(Quotient(scale, x)) % 0x1_0000
    ensures InRange(scale, x) ==>
      SignedWord(PackDouble(Finite(scale), Finite(x))) == RoundHalfAway(Quotient(scale, x))
  {
    RoundNearest(Quotient(scale, x));
  }

  // What is not finite is sent as 0, and so is anything under a scale that is not finite.
  lemma NonFinitePacksZero(scale: Double, d: Double)
    requires !scale.Finite? || !d.Finite?
    ensures PackDouble(scale, d) == 0
  {
  }

  // In range, a round trip moves a double by at most half a scale step.
  lemma QuantiseWithinHalfStep(scale: real, x: real)
    requires InRange(scale, x)
    ensures var q := Quantise(Finite(scale), DoubleV(Finite(x)));
      && q.d.Finite?
      && Abs(q.d.r - x) <= Abs(StepOf(scale)) / 2.0
  {
    hide RoundHalfAway, Quotient, Steps, Quantise;
    QuantiseInRange(scale, x);
    assert -32768.5 < Quotient(scale, x) < 32767.5;
    RoundNearest(Quotient(scale, x));
    WithinHalfStep(scale, x, RoundHalfAway(Quotient(scale, x)));
  }

  // Any integer within half of the quotient decodes to within half a scale step.
  lemma WithinHalfStep(scale: real, x: real, i: int)
    requires Abs(i as real - Quotient(scale, x)) <= 0.5
    ensures Abs(Steps(i, scale) - x) <= Abs(StepOf(scale)) / 2.0
  {
    var q, s := Quotient(scale, x), StepOf(scale);
    QuotientBack(x, s);
    StepsAre(i, scale);
    hide Abs, Steps, StepOf, Quotient;
    HalfStep(i as real, q, s, Steps(i, scale), x);
  }

  lemma QuotientBack(x: real, s: real)
    requires s != 0.0
    ensures (x / s) * s == x
  {
  }

  lemma StepsAre(i: int, scale: real)
    ensures Steps(i, scale) == i as real * StepOf(scale)
  {
    assert i as real * 1.0 == i as real;
  }

  lemma HalfStep(i: real, q: real, s: real, p: real, x: real)
    requires Abs(i - q) <= 0.5 && p == i * s && x == q * s
    ensures Abs(p - x) <= Abs(s) / 2.0
  {
    Distribute(i, q, s);
    ScaleError(i - q, s, p - x);
  }

  lemma Distribute(a: real, b: real, s: real)
    ensures (a - b) * s == a * s - b * s
  {
  }

  // With a positive scale, in-range round trips keep the order of values.
  lemma QuantiseMonotone(scale: real, x: real, y: real)
    requires scale > 0.0 && x <= y && InRange(scale, x) && InRange(scale, y)
    ensures var qx := Quantise(Finite(scale), DoubleV(Finite(x))).d;
      var qy := Quantise(Finite(scale), DoubleV(Finite(y))).d;
      qx.Finite? && qy.Finite? && qx.r <= qy.r
  {
    hide RoundHalfAway, Quotient, Quantise, InRange;
    QuantiseInRange(scale, x);
    QuantiseInRange(scale, y);
    RoundedQuotientMonotone(scale, x, y);
    ScaledMonotone(RoundHalfAway(Quotient(scale, x)), RoundHalfAway(Quotient(scale, y)), scale);
  }

  lemma RoundedQuotientMonotone(scale: real, x: real, y: real)
    requires scale > 0.0 && x <= y
    ensures RoundHalfAway(Quotient(scale, x)) <= RoundHalfAway(Quotient(scale, y))
  {
    DivideMonotone(x, y, scale);
    RoundMonotone(x / scale, y / scale);
  }

  lemma QuantiseInRange(scale: real, x: real)
    requires InRange(scale, x)
    ensures Quantise(Finite(scale), DoubleV(Finite(x)))
         == DoubleV(Finite(Steps(RoundHalfAway(Quotient(scale, x)), scale)))
  {
    hide RoundHalfAway, Quotient, PackDouble, Steps, SignedWord, InRange;
    PackRounds(scale, x);
    DecodesSteps(scale, PackDouble(Finite(scale), Finite(x)));
    assert Pack(Finite(scale), DoubleV(Finite(x))) == [PackDouble(Finite(scale), Finite(x))];
  }

  lemma DivideMonotone(x: real, y: real, s: real)
    requires s > 0.0 && x <= y
    ensures x / s <= y / s
  {
  }

  lemma ScaledMonotone(i: int, j: int, s: real)
    requires s > 0.0 && i <= j
    ensures i as real * s <= j as real * s
  {
  }
}
