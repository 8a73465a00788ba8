/**
 * Explicit pads for a Conv with auto_pad SAME_UPPER: on each spatial axis the output has as many positions
 * as strides fit over the input, and an odd total puts the extra element at the end.
 */
module SamePads {
  import opened Common

  datatype Pads = Pads(begin: nat, end: nat)

  /** Positions of a window of `effective` elements moved by `stride` over `size + total` elements. */
  function OutputLength(size: nat, total: nat, effective: int, stride: nat): (n: int)
    requires stride > 0
  {
    (size + total - effective) / stride + 1
  }

  /** `n` is `size / stride` rounded up. */
  ghost predicate IsCeiling(n: int, size: nat, stride: nat) {
    (n - 1) * stride < size <= n * stride
  }

  /** What SAME_UPPER asks of the pads of one axis, with no more padding than it takes. */
  ghost predicate IsSameUpper(size: nat, effective: int, stride: nat, p: Pads)
    requires stride > 0
  {
    && IsCeiling(OutputLength(size, p.begin + p.end, effective, stride), size, stride)
    && (p.end == p.begin || p.end == p.begin + 1)
    && forall total: nat :: IsCeiling(OutputLength(size, total, effective, stride), size, stride) ==>
         p.begin + p.end <= total
  }

  function CeilingOf(size: int, stride: int): (n: int)
    requires stride > 0
  {
    -((0 - size) / stride)
  }

  function Effective(kernel: nat, dilation: nat): (n: int) {
    (kernel as int - 1) * dilation + 1
  }

  function Total(size: nat, effective: int, stride: nat): (n: nat)
    requires stride > 0
  {
    var out := CeilingOf(size, stride);
    var total := (out - 1) * stride + effective - size;
    if total > 0 then total else 0
  }

  function AxisPads(size: nat, effective: int, stride: nat): (p: Pads)
    requires stride > 0
  {
    var total := Total(size, effective, stride);
    Pads(total / 2, total - total / 2)
  }

  // ---- arithmetic ----------------------------------------------------------------------------------

  lemma TimesMonotone(a: int, b: int, s: nat)
    requires a <= b
    ensures a * s <= b * s
  {
    assert (b - a) * s >= 0;
  }

  lemma QuotientIs(a: int, s: nat, q: int)
    requires s > 0
    ensures a / s == q <==> q * s <= a < (q + 1) * s
  {
    var d := a / s;
    assert a == d * s + a % s;
    if d < q {
      TimesMonotone(d + 1, q, s);
    } else if q < d {
      TimesMonotone(q + 1, d, s);
    }
  }

  lemma RoundedUp(size: nat, stride: nat)
    requires stride > 0
    ensures IsCeiling(CeilingOf(size, stride), size, stride)
  {
    var q := (0 - size as int) / stride;
    QuotientIs(0 - size, stride, q);
    assert (-q - 1) * stride == -((q + 1) * stride);
    assert (-q) * stride == -(q * stride);
  }

  lemma CeilingUnique(m: int, n: int, size: nat, stride: nat)
    requires stride > 0 && IsCeiling(m, size, stride) && IsCeiling(n, size, stride)
    ensures m == n
  {
    if m < n {
      TimesMonotone(m, n - 1, stride);
    } else if n < m {
      TimesMonotone(n, m - 1, stride);
    }
  }

  /** The output has the required length exactly when the padded input ends within the last stride. */
  lemma LengthIs(size: nat, total: nat, effective: int, stride: nat, out: int)
    requires stride > 0
    ensures OutputLength(size, total, effective, stride) == out
            <==> (out - 1) * stride <= size + total - effective < out * stride
  {
    QuotientIs(size + total - effective, stride, out - 1);
  }

  lemma TotalReaches(size: nat, effective: int, stride: nat)
    requires stride > 0 && effective > 0
    ensures OutputLength(size, Total(size, effective, stride), effective, stride) == CeilingOf(size, stride)
  {
    var out := CeilingOf(size, stride);
    RoundedUp(size, stride);
    LengthIs(size, Total(size, effective, stride), effective, stride, out);
    assert out * stride == (out - 1) * stride + stride;
  }

  lemma TotalLeast(size: nat, effective: int, stride: nat, total: nat)
    requires stride > 0 && IsCeiling(OutputLength(size, total, effective, stride), size, stride)
    ensures Total(size, effective, stride) <= total
  {
    var out := CeilingOf(size, stride);
    RoundedUp(size, stride);
    CeilingUnique(OutputLength(size, total, effective, stride), out, size, stride);
    LengthIs(size, total, effective, stride, out);
  }

  /** The computed pads are the one answer to what SAME_UPPER asks. */
  lemma PadsExactly(size: nat, effective: int, stride: nat, p: Pads)
    requires stride > 0 && effective > 0
    ensures IsSameUpper(size, effective, stride, p) <==> p == AxisPads(size, effective, stride)
  {
    var total := Total(size, effective, stride);
    TotalReaches(size, effective, stride);
    RoundedUp(size, stride);
    forall t: nat | IsCeiling(OutputLength(size, t, effective, stride), size, stride) ensures total <= t {
      TotalLeast(size, effective, stride, t);
    }
    var own := AxisPads(size, effective, stride);
    assert own.begin + own.end == total;
  }

  // ---- the loop over the axes ----------------------------------------------------------------------

  datatype PadError = MissingDimension | DynamicDimension | MissingStride | ZeroStride | MissingDilation

  function OrOnes(values: Option<seq<nat>>, rank: nat): (r: seq<nat>)
    ensures values.None? ==> |r| == rank && forall i :: 0 <= i < rank ==> r[i] == 1
  {
    if values.Some? then values.value else seq(rank, _ => 1)
  }

  /** The axis can be padded: every number it takes is there. */
  predicate AxisKnown(shape: seq<Option<nat>>, strides: seq<nat>, dilations: seq<nat>, axis: nat) {
    && 2 + axis < |shape| && shape[2 + axis].Some?
    && axis < |strides| && strides[axis] > 0
    && axis < |dilations|
  }

  /** What is the matter with an axis, looked at in the order in which its numbers are needed. */
  function Fault(shape: seq<Option<nat>>, strides: seq<nat>, dilations: seq<nat>, axis: nat): (e: Option<PadError>)
    ensures e.None? <==> AxisKnown(shape, strides, dilations, axis)
    ensures e == Some(DynamicDimension) <==> 2 + axis < |shape| && shape[2 + axis].None?
  {
    if 2 + axis >= |shape| then Some(MissingDimension)
    else if shape[2 + axis].None? then Some(DynamicDimension)
    else if axis >= |strides| then Some(MissingStride)
    else if strides[axis] == 0 then Some(ZeroStride)
    else if axis >= |dilations| then Some(MissingDilation)
    else None
  }

  predicate AllKnown(shape: seq<Option<nat>>, strides: seq<nat>, dilations: seq<nat>, rank: nat) {
    forall axis :: 0 <= axis < rank ==> AxisKnown(shape, strides, dilations, axis)
  }

  /** The error of the first axis that cannot be padded. */
  ghost predicate FirstFault(shape: seq<Option<nat>>, strides: seq<nat>, dilations: seq<nat>, rank: nat, e: PadError) {
    exists axis: nat :: axis < rank && AllKnown(shape, strides, dilations, axis) && Fault(shape, strides, dilations,
                                                axis) == Some(e)
  }

  lemma FirstFaultUnique(shape: seq<Option<nat>>, strides: seq<nat>, dilations: seq<nat>, rank: nat, e: PadError,
                         f: PadError)
    requires FirstFault(shape, strides, dilations, rank, e)
    ensures FirstFault(shape, strides, dilations, rank, f) <==> e == f
    ensures !AllKnown(shape, strides, dilations, rank)
  {
    var a: nat :| a < rank && AllKnown(shape, strides, dilations, a) && Fault(shape, strides, dilations, a) == Some(e);
    assert !AxisKnown(shape, strides, dilations, a);
    if FirstFault(shape, strides, dilations, rank, f) {
      var b: nat :| b < rank && AllKnown(shape, strides, dilations, b) && Fault(shape, strides, dilations,
                                         b) == Some(f);
      assert !AxisKnown(shape, strides, dilations, b);
    }
  }

  lemma FaultHere(shape: seq<Option<nat>>, strides: seq<nat>, dilations: seq<nat>, rank: nat, axis: nat)
    requires axis < rank && AllKnown(shape, strides, dilations, axis) && !AxisKnown(shape, strides, dilations, axis)
    ensures FirstFault(shape, strides, dilations, rank, Fault(shape, strides, dilations, axis).value)
    ensures !AllKnown(shape, strides, dilations, rank)
  {
  }

  function PadsAt(shape: seq<Option<nat>>, kernel: seq<nat>, strides: seq<nat>, dilations: seq<nat>,
                  axis: nat): (p: Pads)
    requires axis < |kernel| && AxisKnown(shape, strides, dilations, axis)
  {
    AxisPads(shape[2 + axis].value, Effective(kernel[axis], dilations[axis]), strides[axis])
  }

  /** The pads attribute: the begin of every axis, then the end of every axis. */
  function PadsOf(shape: seq<Option<nat>>, kernel: seq<nat>, strides: seq<nat>, dilations: seq<nat>): (pads: seq<nat>)
    requires AllKnown(shape, strides, dilations, |kernel|)
    ensures |pads| == 2 * |kernel|
    ensures forall axis :: 0 <= axis < |kernel| ==>
              Pads(pads[axis], pads[|kernel| + axis]) == PadsAt(shape, kernel, strides, dilations, axis)
  {
    seq(|kernel|, axis requires 0 <= axis < |kernel| => PadsAt(shape, kernel, strides, dilations, axis).begin)
    + seq(|kernel|, axis requires 0 <= axis < |kernel| => PadsAt(shape, kernel, strides, dilations, axis).end)
  }

  /** Every axis gets pads that meet SAME_UPPER, and no other pads do. */
  lemma PadsOfExactly(shape: seq<Option<nat>>, kernel: seq<nat>, strides: seq<nat>, dilations: seq<nat>, axis: nat,
                      p: Pads)
    requires AllKnown(shape, strides, dilations, |kernel|) && axis < |kernel|
    requires AxisKnown(shape, strides, dilations, axis) && kernel[axis] > 0 && dilations[axis] > 0
    ensures var pads := PadsOf(shape, kernel, strides, dilations);
            IsSameUpper(shape[2 + axis].value, Effective(kernel[axis], dilations[axis]), strides[axis], p)
            <==> p == Pads(pads[axis], pads[|kernel| + axis])
  {
    assert (kernel[axis] as int - 1) * dilations[axis] >= 0;
    PadsExactly(shape[2 + axis].value, Effective(kernel[axis], dilations[axis]), strides[axis], p);
  }

  predicate Padded(shape: seq<Option<nat>>, kernel: seq<nat>, strides: seq<nat>, dilations: seq<nat>, begin: seq<nat>,
                   end: seq<nat>)
    requires |begin| == |end| <= |kernel| && AllKnown(shape, strides, dilations, |begin|)
  {
    forall a :: 0 <= a < |begin| ==> Pads(begin[a], end[a]) == PadsAt(shape, kernel, strides, dilations, a)
  }

  method ExplicitPads(shape: seq<Option<nat>>, kernel: seq<nat>, strides: Option<seq<nat>>, dilations: Option<seq<nat>>)
    returns (r: Result<seq<nat>, PadError>)
    ensures r.Ok? <==> AllKnown(shape, OrOnes(strides, |kernel|), OrOnes(dilations, |kernel|), |kernel|)
    ensures r.Err? ==> FirstFault(shape, OrOnes(strides, |kernel|), OrOnes(dilations, |kernel|), |kernel|, r.error)
    ensures r.Ok? ==> r.value == PadsOf(shape, kernel, OrOnes(strides, |kernel|), OrOnes(dilations, |kernel|))
  {
    var rank := |kernel|;
    var stride, dilation := OrOnes(strides, rank), OrOnes(dilations, rank);
    var begin: seq<nat>, end: seq<nat> := [], [];
    for axis := 0 to rank
      invariant |begin| == |end| == axis
      invariant AllKnown(shape, stride, dilation, axis)
      invariant Padded(shape, kernel, stride, dilation, begin, end)
    {
      if !AxisKnown(shape, stride, dilation, axis) {
        FaultHere(shape, stride, dilation, rank, axis);
      }
      if 2 + axis >= |shape| {
        return Err(MissingDimension);
      }
      if shape[2 + axis].None? {
        return Err(DynamicDimension);
      }
      if axis >= |stride| {
        return Err(MissingStride);
      }
      if stride[axis] == 0 {
        return Err(ZeroStride);
      }
      if axis >= |dilation| {
        return Err(MissingDilation);
      }
      var size := shape[2 + axis].value;
      var out := CeilingOf(size, stride[axis]);
      var effective := Effective(kernel[axis], dilation[axis]);
      var least := (out - 1) * stride[axis] + effective - size;
      var total: nat := if least > 0 then least else 0;
      assert PadsAt(shape, kernel, stride, dilation, axis) == Pads(total / 2, total - total / 2);
      begin, end := begin + [total / 2], end + [total - total / 2];
    }
    assert begin + end == PadsOf(shape, kernel, stride, dilation);
    return Ok(begin + end);
  }
}
