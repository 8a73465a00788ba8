/**
 * The part of ONNX that the Core ML pre-pass works on: named tensors, nodes, and what running a node list
 * means. Operators the pre-pass neither reads nor writes are left to a parameter.
 */
module OnnxGraph {
  import opened Common
  import opened Quantization
  import opened Strided
  import opened Tensors
  import SamePads

  // ---- names ---------------------------------------------------------------------------------------

  datatype Part =
    | WeightsCentred | TwoFiftyFive | Min | Max | MinNeg | MinNegPos | Low | High | Range
    | LowScaled | ZeroPointRaw | ZeroPointRound | XScaled | XRound | XShift | Q | QCentred

  /** A name of the model as read, or one that a rewrite makes from a prefix, a suffix or a node's name. */
  datatype Name =
    | Given(text: string)
    | Prefixed(rewrite: nat, part: Part)
    | Float(of: Name) | Pos(of: Name) | Gap(of: Name)
    | ReverseIndices(node: string)

  // ---- operators -----------------------------------------------------------------------------------

  datatype Op =
    | Conv(autoPad: Option<string>, strides: Option<seq<nat>>, dilations: Option<seq<nat>>, pads: Option<seq<nat>>)
    | Slice
    | Gather(axis: int)
    | DynamicQuantizeLinear
    | MatMulInteger
    | Cast(toFloat: bool)
    | ReduceMin  // over all axes, keeping them
    | ReduceMax
    | Neg
    | Relu
    | Round
    | Sub
    | Add
    | Mul
    | Div
    | MatMul
    | Other(kind: string)

  datatype Node = Node(op: Op, name: string, inputs: seq<Name>, outputs: seq<Name>)

  /** Operators whose inside does not matter here, and the cases ONNX leaves open: the i-th output. */
  datatype Meaning = Meaning(
    conv: (seq<Tensor>, Option<seq<nat>>, Option<seq<nat>>, seq<nat>) -> Tensor,
    matmul: (Tensor, Tensor) -> Tensor,
    other: (Op, seq<Tensor>, nat) -> Tensor)

  function Each(op: Op, data: seq<real>): (r: seq<real>)
    requires op.Neg? || op.Relu? || op.Round?
    ensures |r| == |data|
  {
    seq(|data|, i requires 0 <= i < |data| =>
      match op
      case Neg => -data[i]
      case Relu => Quantization.Relu(data[i])
      case _ => RoundEven(data[i]) as real)
  }

  predicate Arithmetic(op: Op) {
    op.Sub? || op.Add? || op.Mul? || op.Div?
  }

  function Operate(op: Op, x: real, y: real): (r: real)
    requires Arithmetic(op)
  {
    match op
    case Sub => x - y
    case Add => x + y
    case Mul => x * y
    case _ => if y == 0.0 then 0.0 else x / y
  }

  /** The shapes broadcast, and nothing is divided by zero. */
  predicate Combines(op: Op, a: Tensor, b: Tensor) {
    Broadcasts(a, b) && (op.Div? ==> forall i :: 0 <= i < |b.data| ==> b.data[i] != 0.0)
  }

  function Operation(op: Op): (f: (real, real) -> real)
    requires Arithmetic(op)
  {
    (x: real, y: real) requires Arithmetic(op) => Operate(op, x, y)
  }

  function Combined(op: Op, a: Tensor, b: Tensor): (t: Tensor)
    requires Arithmetic(op) && Combines(op, a, b)
  {
    Broadcast(Operation(op), a, b)
  }

  predicate Centrable(w: Tensor, zero: Tensor) {
    Broadcasts(w, zero)
  }

  /** The weights less their zero point. */
  function Centred(w: Tensor, zero: Tensor): (t: Tensor)
    requires Centrable(w, zero)
  {
    Combined(Sub, w, zero)
  }

  function Shifted(t: Tensor, zero: real): (r: Tensor) {
    Tensor(t.dims, seq(|t.data|, i requires 0 <= i < |t.data| => t.data[i] - zero))
  }

  function QuantizedAll(data: seq<real>): (r: seq<real>)
    requires SomeNonzero(data)
  {
    seq(|data|, i requires 0 <= i < |data| => Quantized(data, data[i]))
  }

  // ---- selecting along an axis ---------------------------------------------------------------------

  predicate IsAxis(t: Tensor, axis: int) {
    -|t.dims| <= axis < |t.dims|
  }

  function AxisOf(t: Tensor, axis: int): (a: nat)
    requires IsAxis(t, axis)
    ensures a < |t.dims|
  {
    if axis < 0 then axis + |t.dims| else axis
  }

  predicate Within(picks: seq<int>, n: nat) {
    forall j :: 0 <= j < |picks| ==> 0 <= picks[j] < n
  }

  /** The tensor whose position `j` along the axis is position `picks[j]` of `t`. */
  function Selected(t: Tensor, axis: nat, picks: seq<int>): (r: Tensor)
    requires axis < |t.dims| && Within(picks, t.dims[axis])
  {
    var dims := t.dims[axis := |picks|];
    if Empty(dims) then Tensor(dims, [])
    else Tensor(dims, seq(Product(dims), p requires 0 <= p =>
      var index := Digits(dims, p);
      Element(t.dims, t.data, index[axis := picks[index[axis]]])))
  }

  lemma SelectedElement(t: Tensor, axis: nat, picks: seq<int>, dims: seq<nat>, p: nat)
    requires axis < |t.dims| && Within(picks, t.dims[axis]) && dims == t.dims[axis := |picks|]
    requires (forall k :: 0 <= k < |dims| ==> dims[k] > 0) && p < Product(dims)
    ensures |Selected(t, axis, picks).data| == Product(dims)
    ensures var index := Digits(dims, p);
            Selected(t, axis, picks).data[p] == Element(t.dims, t.data, index[axis := picks[index[axis]]])
  {
  }

  function Clamp(v: int, low: int, high: int): (r: int) {
    if v < low then low else if v > high then high else v
  }

  function FromEnd(v: int, n: nat): (r: int) {
    if v < 0 then v + n else v
  }

  function Steps(at: int, end: int, step: int): (r: seq<int>)
    requires step != 0
    decreases if step > 0 then end - at else at - end
  {
    if (step > 0 && at < end) || (step < 0 && at > end) then [at] + Steps(at + step, end, step) else []
  }

  /** The positions that a Slice of an axis of length `n` takes. */
  function SlicePicks(n: nat, start: int, end: int, step: int): (r: seq<int>)
    requires step != 0
  {
    if n == 0 then []
    else if step > 0 then Steps(Clamp(FromEnd(start, n), 0, n), Clamp(FromEnd(end, n), 0, n), step)
    else Steps(Clamp(FromEnd(start, n), 0, n - 1), Clamp(FromEnd(end, n), -1, n - 1), step)
  }

  lemma {:induction false} StepsWithin(at: int, end: int, step: int, n: nat)
    requires step != 0 && (step > 0 ==> 0 <= at && end <= n) && (step < 0 ==> at < n && -1 <= end)
    ensures Within(Steps(at, end, step), n)
    decreases if step > 0 then end - at else at - end
  {
    if (step > 0 && at < end) || (step < 0 && at > end) {
      StepsWithin(at + step, end, step, n);
    }
  }

  /** A Slice only takes positions that are there. */
  lemma SlicePicksWithin(n: nat, start: int, end: int, step: int)
    requires step != 0
    ensures Within(SlicePicks(n, start, end, step), n)
  {
    if n == 0 {
    } else if step > 0 {
      StepsWithin(Clamp(FromEnd(start, n), 0, n), Clamp(FromEnd(end, n), 0, n), step, n);
    } else {
      StepsWithin(Clamp(FromEnd(start, n), 0, n - 1), Clamp(FromEnd(end, n), -1, n - 1), step, n);
    }
  }

  function GatherPicks(n: nat, indices: seq<real>): (r: seq<int>) {
    seq(|indices|, i requires 0 <= i < |indices| => FromEnd(indices[i].Floor, n))
  }

  predicate IsList(t: Tensor) {
    t.dims == [|t.data|]
  }

  predicate OneAxisSlice(args: seq<Tensor>) {
    && |args| == 5
    && (forall i :: 1 <= i < 5 ==> IsList(args[i]) && |args[i].data| == 1)
    && IsAxis(args[0], args[3].data[0].Floor)
    && args[4].data[0].Floor != 0
  }

  predicate ListGather(args: seq<Tensor>, axis: int) {
    |args| == 2 && IsList(args[1]) && IsAxis(args[0], axis)
  }

  // ---- convolution ---------------------------------------------------------------------------------

  predicate Paddable(x: Tensor, w: Tensor, strides: seq<nat>, dilations: seq<nat>) {
    && |w.dims| >= 2 && |x.dims| == |w.dims| && |strides| == |dilations| == |w.dims| - 2
    && forall a :: 0 <= a < |strides| ==> strides[a] > 0 && dilations[a] > 0 && w.dims[2 + a] > 0
  }

  /** The pads that SAME_UPPER stands for, by what it asks for and not by how they are computed. */
  ghost function SameUpper(size: nat, effective: int, stride: nat): (p: SamePads.Pads)
    requires stride > 0 && effective > 0
    ensures SamePads.IsSameUpper(size, effective, stride, p)
  {
    SamePads.PadsExactly(size, effective, stride, SamePads.AxisPads(size, effective, stride));
    var p :| SamePads.IsSameUpper(size, effective, stride, p);
    p
  }

  ghost function AxisSameUpper(x: Tensor, w: Tensor, strides: seq<nat>, dilations: seq<nat>, a: nat): (p: SamePads.Pads)
    requires Paddable(x, w, strides, dilations) && a < |strides|
  {
    assert (w.dims[2 + a] as int - 1) * dilations[a] >= 0;
    SameUpper(x.dims[2 + a], SamePads.Effective(w.dims[2 + a], dilations[a]), strides[a])
  }

  ghost function SameUpperPads(x: Tensor, w: Tensor, strides: seq<nat>, dilations: seq<nat>): (pads: seq<nat>)
    requires Paddable(x, w, strides, dilations)
  {
    var rank := |strides|;
    seq(rank, a requires 0 <= a < rank => AxisSameUpper(x, w, strides, dilations, a).begin)
    + seq(rank, a requires 0 <= a < rank => AxisSameUpper(x, w, strides, dilations, a).end)
  }

  ghost function ConvOf(m: Meaning, op: Op, args: seq<Tensor>, i: nat): (t: Tensor)
    requires op.Conv?
  {
    if op.autoPad == Some("SAME_UPPER") then
      if |args| < 2 || |args[1].dims| < 2 then m.other(op, args, i)
      else
        var rank := |args[1].dims| - 2;
        var strides, dilations := SamePads.OrOnes(op.strides, rank), SamePads.OrOnes(op.dilations, rank);
        if Paddable(args[0], args[1], strides, dilations)
        then m.conv(args, op.strides, op.dilations, SameUpperPads(args[0], args[1], strides, dilations))
        else m.other(op, args, i)
    else if op.autoPad.None? && op.pads.Some? then m.conv(args, op.strides, op.dilations, op.pads.value)
    else m.other(op, args, i)
  }

  // ---- nodes ---------------------------------------------------------------------------------------

  ghost function QuantizeOf(x: Tensor, i: nat): (t: Tensor)
    requires SomeNonzero(x.data)
  {
    if i == 0 then Tensor(x.dims, QuantizedAll(x.data))
    else if i == 1 then Tensor([], [Scale(x.data)])
    else Tensor([], [ZeroPoint(x.data) as real])
  }

  predicate Quantizable(args: seq<Tensor>) {
    |args| == 1 && SomeNonzero(args[0].data)
  }

  predicate IntegerProduct(args: seq<Tensor>) {
    |args| == 4 && IsUnit(args[2]) && Centrable(args[1], args[3])
  }

  /** The i-th output of an operator. */
  ghost function Apply(m: Meaning, op: Op, args: seq<Tensor>, i: nat): (t: Tensor) {
    match op
    case Conv(_, _, _, _) => ConvOf(m, op, args, i)
    case Slice =>
      if OneAxisSlice(args) then
        var axis := AxisOf(args[0], args[3].data[0].Floor);
        var picks := SlicePicks(args[0].dims[axis], args[1].data[0].Floor, args[2].data[0].Floor,
                                args[4].data[0].Floor);
        SlicePicksWithin(args[0].dims[axis], args[1].data[0].Floor, args[2].data[0].Floor, args[4].data[0].Floor);
        Selected(args[0], axis, picks)
      else m.other(op, args, i)
    case Gather(a) =>
      if ListGather(args, a) then
        var axis := AxisOf(args[0], a);
        var picks := GatherPicks(args[0].dims[axis], args[1].data);
        if Within(picks, args[0].dims[axis]) then Selected(args[0], axis, picks) else m.other(op, args, i)
      else m.other(op, args, i)
    case DynamicQuantizeLinear => if Quantizable(args) then QuantizeOf(args[0], i) else m.other(op, args, i)
    case MatMulInteger =>
      if IntegerProduct(args) then m.matmul(Shifted(args[0], args[2].data[0]), Centred(args[1], args[3]))
      else m.other(op, args, i)
    case Cast(toFloat) => if toFloat && |args| == 1 then args[0] else m.other(op, args, i)
    case ReduceMin =>
      if |args| == 1 && args[0].data != [] then Unit(|args[0].dims|, Least(args[0].data)) else m.other(op, args, i)
    case ReduceMax =>
      if |args| == 1 && args[0].data != [] then Unit(|args[0].dims|, Greatest(args[0].data)) else m.other(op, args, i)
    case Neg => if |args| == 1 then Tensor(args[0].dims, Each(op, args[0].data)) else m.other(op, args, i)
    case Relu => if |args| == 1 then Tensor(args[0].dims, Each(op, args[0].data)) else m.other(op, args, i)
    case Round => if |args| == 1 then Tensor(args[0].dims, Each(op, args[0].data)) else m.other(op, args, i)
    case Sub =>
      if |args| == 2 && Combines(op, args[0], args[1]) then Combined(op, args[0], args[1]) else m.other(op, args, i)
    case Add =>
      if |args| == 2 && Combines(op, args[0], args[1]) then Combined(op, args[0], args[1]) else m.other(op, args, i)
    case Mul =>
      if |args| == 2 && Combines(op, args[0], args[1]) then Combined(op, args[0], args[1]) else m.other(op, args, i)
    case Div =>
      if |args| == 2 && Combines(op, args[0], args[1]) then Combined(op, args[0], args[1]) else m.other(op, args, i)
    case MatMul => if |args| == 2 then m.matmul(args[0], args[1]) else m.other(op, args, i)
    case Other(_) => m.other(op, args, i)
  }
}
