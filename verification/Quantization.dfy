/**
 * The arithmetic of dynamic int8 quantisation, over the reals: the ONNX operator DynamicQuantizeLinear
 * and the Relu/Sub/Round form of it that the Core ML pre-pass writes.
 */
module Quantization {
  /** Nearest integer, ties to the even one: the ONNX operator Round. */
  function RoundEven(r: real): (n: int)
    ensures -0.5 <= r - n as real <= 0.5
    ensures (r - n as real == 0.5 || r - n as real == -0.5) ==> n % 2 == 0
  {
    var low := r.Floor;
    var rest := r - low as real;
    if rest < 0.5 || (rest == 0.5 && low % 2 == 0) then low else low + 1
  }

  function Relu(v: real): (r: real) {
    if v < 0.0 then 0.0 else v
  }

  /** Saturation to the range of an unsigned byte. */
  function Saturate(v: real): (r: real)
    ensures 0.0 <= r <= 255.0
  {
    if v < 0.0 then 0.0 else if v > 255.0 then 255.0 else v
  }

  function Least(data: seq<real>): (m: real)
    requires data != []
    ensures m in data && forall v :: v in data ==> m <= v
  {
    if |data| == 1 then data[0]
    else
      var rest := Least(data[1..]);
      assert forall v :: v in data ==> v == data[0] || v in data[1..];
      if data[0] <= rest then data[0] else rest
  }

  function Greatest(data: seq<real>): (m: real)
    requires data != []
    ensures m in data && forall v :: v in data ==> v <= m
  {
    if |data| == 1 then data[0]
    else
      var rest := Greatest(data[1..]);
      assert forall v :: v in data ==> v == data[0] || v in data[1..];
      if rest <= data[0] then data[0] else rest
  }

  predicate SomeNonzero(data: seq<real>) {
    exists i :: 0 <= i < |data| && data[i] != 0.0
  }

  /** The scale of DynamicQuantizeLinear: the range of the data, widened to include zero, over 255 steps. */
  function Scale(data: seq<real>): (s: real)
    requires data != []
  {
    var low := if Least(data) < 0.0 then Least(data) else 0.0;
    var high := if Greatest(data) > 0.0 then Greatest(data) else 0.0;
    (high - low) / 255.0
  }

  lemma ScalePositive(data: seq<real>)
    requires SomeNonzero(data)
    ensures Scale(data) > 0.0
  {
    var i :| 0 <= i < |data| && data[i] != 0.0;
    assert data[i] in data;
    assert Least(data) <= data[i] <= Greatest(data);
  }

  /** The zero point of DynamicQuantizeLinear, which saturates before it rounds. */
  function ZeroPoint(data: seq<real>): (z: int)
    requires SomeNonzero(data)
  {
    ScalePositive(data);
    RoundEven(Saturate(0.0 - Least(data) / Scale(data)))
  }

  /** The quantised value of one element. */
  function Quantized(data: seq<real>, v: real): (q: real)
    requires SomeNonzero(data)
  {
    ScalePositive(data);
    Saturate((RoundEven(v / Scale(data)) + ZeroPoint(data)) as real)
  }

  // ---- the form built from Relu, Sub, Neg, Div and Round ------------------------------------------

  function ReluLow(data: seq<real>): (r: real)
    requires data != []
  {
    -Relu(-Least(data))
  }

  function ReluScale(data: seq<real>): (r: real)
    requires data != []
  {
    (Relu(Greatest(data)) - ReluLow(data)) / 255.0
  }

  function ReluSaturate(v: real): (r: real) {
    255.0 - Relu(255.0 - Relu(v))
  }

  function ReluZeroPoint(data: seq<real>): (r: real)
    requires data != [] && ReluScale(data) != 0.0
  {
    ReluSaturate(RoundEven(-(ReluLow(data) / ReluScale(data))) as real)
  }

  function ReluQuantized(data: seq<real>, v: real): (r: real)
    requires data != [] && ReluScale(data) != 0.0
  {
    ReluSaturate(RoundEven(v / ReluScale(data)) as real + ReluZeroPoint(data))
  }

  // ---- rounding ------------------------------------------------------------------------------------

  lemma RoundMonotone(a: real, b: real)
    requires a <= b
    ensures RoundEven(a) <= RoundEven(b)
  {
  }

  lemma RoundNegated(r: real)
    ensures RoundEven(-r) == -RoundEven(r)
  {
  }

  lemma RoundInByteRange(r: real)
    requires 0.0 <= r <= 255.0
    ensures 0 <= RoundEven(r) <= 255
  {
  }

  // ---- quotients -----------------------------------------------------------------------------------

  lemma QuotientTimes(p: real, s: real)
    requires s != 0.0
    ensures (p / s) * s == p && (p * s) / s == p
  {
  }

  lemma QuotientDifference(a: real, b: real, s: real)
    requires s != 0.0
    ensures a / s - b / s == (a - b) / s
  {
    var p, q := a / s, b / s;
    QuotientTimes(a, s);
    QuotientTimes(b, s);
    assert a - b == (p - q) * s;
    QuotientTimes(p - q, s);
  }

  lemma QuotientBetween(low: real, v: real, high: real, s: real)
    requires s > 0.0 && low <= v <= high
    ensures low / s <= v / s <= high / s
  {
    assert (v - low) / s >= 0.0;
    assert (high - v) / s >= 0.0;
  }

  /** In steps of the scale, the data reach from minus the zero-point offset up to what is left of 255. */
  lemma RangeInSteps(low: real, high: real, s: real)
    requires s > 0.0 && low <= 0.0 <= high && s == (high - low) / 255.0
    ensures 0.0 <= -(low / s) <= 255.0 && high / s == 255.0 + low / s
  {
    QuotientDifference(high, low, s);
    assert high - low == 255.0 * s;
    QuotientTimes(255.0, s);
    QuotientBetween(low, 0.0, high, s);
  }

  lemma ScaleBothForms(data: seq<real>)
    requires data != []
    ensures ReluScale(data) == Scale(data)
    ensures ReluLow(data) == if Least(data) < 0.0 then Least(data) else 0.0
  {
  }

  lemma SaturateBothForms(v: real)
    ensures ReluSaturate(v) == Saturate(v)
  {
  }

  lemma ZeroPointBothForms(data: seq<real>)
    requires SomeNonzero(data)
    ensures ReluScale(data) == Scale(data) > 0.0
    ensures ReluZeroPoint(data) == ZeroPoint(data) as real
  {
    ScalePositive(data);
    ScaleBothForms(data);
    var s, low := Scale(data), ReluLow(data);
    RangeInSteps(low, Relu(Greatest(data)), s);
    RoundInByteRange(-(low / s));
    if Least(data) >= 0.0 {
      QuotientBetween(0.0, Least(data), Least(data), s);
    }
  }

  /**
   * The chain of float operators computes the scale, the zero point and every quantised value of
   * DynamicQuantizeLinear, although it rounds the zero point before saturating it and never takes a
   * minimum or maximum with a constant.
   */
  lemma ChainIsDynamicQuantizeLinear(data: seq<real>, v: real)
    requires SomeNonzero(data)
    ensures ReluScale(data) == Scale(data) > 0.0
    ensures ReluZeroPoint(data) == ZeroPoint(data) as real
    ensures ReluQuantized(data, v) == Quantized(data, v)
  {
    ZeroPointBothForms(data);
    SaturateBothForms(RoundEven(v / Scale(data)) as real + ZeroPoint(data) as real);
  }

  // ---- how far off a quantised value is ------------------------------------------------------------

  /** The rounding argument, in steps of the scale: `offset` is minus the low end of the range, `u` a value in it. */
  lemma StepError(offset: real, u: real)
    requires 0.0 <= offset <= 255.0 && -offset <= u <= 255.0 - offset
    ensures 0 <= RoundEven(u) + RoundEven(offset) <= 256
    ensures RoundEven(u) + RoundEven(offset) == 256 <==>
            u == 255.0 - offset && offset - offset.Floor as real == 0.5 && offset.Floor % 2 == 1
    ensures -0.5 <= Saturate((RoundEven(u) + RoundEven(offset)) as real) - RoundEven(offset) as real - u <= 0.5
  {
    RoundNegated(offset);
    RoundMonotone(-offset, u);
    RoundMonotone(u, 255.0 - offset);
  }

  lemma ProductNotNegative(a: real, b: real)
    requires a >= 0.0 && b >= 0.0
    ensures a * b >= 0.0
  {
  }

  /** What a centred quantised value stands for. */
  function Restored(centred: real, s: real): (r: real) {
    centred * s
  }

  predicate WithinHalf(a: real, b: real, s: real) {
    -s <= 2.0 * (a - b) <= s
  }

  lemma ErrorInUnits(c: real, v: real, s: real)
    requires s > 0.0 && -0.5 <= c - v / s <= 0.5
    ensures WithinHalf(Restored(c, s), v, s)
  {
    var u := v / s;
    QuotientTimes(v, s);
    ProductNotNegative(0.5 - (c - u), s);
    ProductNotNegative(0.5 + (c - u), s);
    assert (0.5 - (c - u)) * s == s / 2.0 - (c * s - u * s);
    assert (0.5 + (c - u)) * s == s / 2.0 + (c * s - u * s);
  }

  lemma Bounds(data: seq<real>, v: real)
    requires SomeNonzero(data) && v in data
    ensures ReluScale(data) == Scale(data) > 0.0
    ensures 0.0 <= -(ReluLow(data) / Scale(data)) <= 255.0
    ensures ReluLow(data) / Scale(data) <= v / Scale(data) <= 255.0 + ReluLow(data) / Scale(data)
    ensures ZeroPoint(data) == RoundEven(-(ReluLow(data) / Scale(data)))
  {
    ScalePositive(data);
    ScaleBothForms(data);
    var s, low, high := Scale(data), ReluLow(data), Relu(Greatest(data));
    RangeInSteps(low, high, s);
    QuotientBetween(low, v, high, s);
    if Least(data) >= 0.0 {
      assert Least(data) / s >= 0.0;
    }
  }

  /**
   * For an element of the data the sum of rounded value and zero point never leaves 0..256, and 256 is reached
   * exactly when the element is the top of the range and the zero point was a tie rounded up.
   */
  lemma QuantizedInSteps(data: seq<real>, v: real)
    requires SomeNonzero(data) && v in data
    ensures Scale(data) > 0.0
    ensures 0 <= RoundEven(v / Scale(data)) + ZeroPoint(data) <= 256
    ensures RoundEven(v / Scale(data)) + ZeroPoint(data) == 256 <==>
            var offset := -(ReluLow(data) / Scale(data));
            v / Scale(data) == 255.0 - offset && offset - offset.Floor as real == 0.5 && offset.Floor % 2 == 1
    ensures -0.5 <= Quantized(data, v) - ZeroPoint(data) as real - v / Scale(data) <= 0.5
  {
    Bounds(data, v);
    StepError(-(ReluLow(data) / Scale(data)), v / Scale(data));
  }

  /**
   * Every element comes back from its quantised form to within half a step of the scale, also where the
   * saturation fires.
   */
  lemma WithinHalfAStep(data: seq<real>, v: real)
    requires SomeNonzero(data) && v in data
    ensures WithinHalf(Restored(Quantized(data, v) - ZeroPoint(data) as real, Scale(data)), v, Scale(data))
  {
    QuantizedInSteps(data, v);
    ErrorInUnits(Quantized(data, v) - ZeroPoint(data) as real, v, Scale(data));
  }
}
