/** The float operators that stand in for DynamicQuantizeLinear, MatMulInteger and Cast, and what they compute. */
module QuantizeChain {
  import opened Quantization
  import opened OnnxGraph
  import opened Tensors
  import opened OnnxOrder
  import opened OnnxRun

  function Unary(op: Op, src: Name, dst: Name): (n: Node) {
    Node(op, "", [src], [dst])
  }

  function Binary(op: Op, left: Name, right: Name, dst: Name): (n: Node) {
    Node(op, "", [left, right], [dst])
  }

  /** min(max(v, 0), 255) without a minimum or a maximum. */
  function ClampNodes(k: nat, src: Name, dst: Name): (r: seq<Node>) {
    [Unary(Op.Relu, src, Pos(dst)),
     Binary(Sub, Prefixed(k, TwoFiftyFive), Pos(dst), Gap(dst)),
     Unary(Op.Relu, Gap(dst), Pos(Gap(dst))),
     Binary(Sub, Prefixed(k, TwoFiftyFive), Pos(Gap(dst)), dst)]
  }

  function ExtremeNodes(k: nat, x: Name): (r: seq<Node>) {
    [Unary(ReduceMin, x, Prefixed(k, Min)),
     Unary(ReduceMax, x, Prefixed(k, Max)),
     Unary(Op.Neg, Prefixed(k, Min), Prefixed(k, MinNeg))]
  }

  function BoundNodes(k: nat): (r: seq<Node>) {
    [Unary(Op.Relu, Prefixed(k, MinNeg), Prefixed(k, MinNegPos)),
     Unary(Op.Neg, Prefixed(k, MinNegPos), Prefixed(k, Low)),
     Unary(Op.Relu, Prefixed(k, Max), Prefixed(k, High))]
  }

  function ScaleNodes(k: nat, scale: Name): (r: seq<Node>) {
    [Binary(Sub, Prefixed(k, High), Prefixed(k, Low), Prefixed(k, Range)),
     Binary(Div, Prefixed(k, Range), Prefixed(k, TwoFiftyFive), scale)]
  }

  function ZeroPointNodes(k: nat, scale: Name): (r: seq<Node>) {
    [Binary(Div, Prefixed(k, Low), scale, Prefixed(k, LowScaled)),
     Unary(Op.Neg, Prefixed(k, LowScaled), Prefixed(k, ZeroPointRaw)),
     Unary(Op.Round, Prefixed(k, ZeroPointRaw), Prefixed(k, ZeroPointRound))]
  }

  function ShiftNodes(k: nat, x: Name, scale: Name, zero: Name): (r: seq<Node>) {
    [Binary(Div, x, scale, Prefixed(k, XScaled)),
     Unary(Op.Round, Prefixed(k, XScaled), Prefixed(k, XRound)),
     Binary(Add, Prefixed(k, XRound), zero, Prefixed(k, XShift))]
  }

  function ProductNodes(k: nat, zero: Name, out: Name): (r: seq<Node>) {
    [Binary(Sub, Prefixed(k, Q), zero, Prefixed(k, QCentred)),
     Binary(MatMul, Prefixed(k, QCentred), Prefixed(k, WeightsCentred), out)]
  }

  function ScaleChain(k: nat, x: Name, scale: Name): (r: seq<Node>) {
    ExtremeNodes(k, x) + BoundNodes(k) + ScaleNodes(k, scale)
  }

  function ZeroPointChain(k: nat, scale: Name, zero: Name): (r: seq<Node>) {
    ZeroPointNodes(k, scale) + ClampNodes(k, Prefixed(k, ZeroPointRound), zero)
  }

  function QuantizedChain(k: nat, x: Name, scale: Name, zero: Name): (r: seq<Node>) {
    ShiftNodes(k, x, scale, zero) + ClampNodes(k, Prefixed(k, XShift), Prefixed(k, Q))
  }

  function FloatChain(k: nat, x: Name, scale: Name, zero: Name): (r: seq<Node>) {
    ScaleChain(k, x, scale) + ZeroPointChain(k, scale, zero) + QuantizedChain(k, x, scale, zero)
  }

  function Chain(k: nat, x: Name, scale: Name, zeroPoint: Name, out: Name): (r: seq<Node>) {
    var zero := Float(zeroPoint);
    FloatChain(k, x, scale, zero) + ProductNodes(k, zero, out)
  }

  // ---- names ---------------------------------------------------------------------------------------

  function ExtremeNames(k: nat): (s: set<Name>) {
    {Prefixed(k, Min), Prefixed(k, Max), Prefixed(k, MinNeg)}
  }

  function BoundNames(k: nat): (s: set<Name>) {
    {Prefixed(k, MinNegPos), Prefixed(k, Low), Prefixed(k, High)}
  }

  function ScaleNames(k: nat, scale: Name): (s: set<Name>) {
    {Prefixed(k, Range), scale}
  }

  function ZeroPointNames(k: nat): (s: set<Name>) {
    {Prefixed(k, LowScaled), Prefixed(k, ZeroPointRaw), Prefixed(k, ZeroPointRound)}
  }

  function ClampNames(dst: Name): (s: set<Name>) {
    {Pos(dst), Gap(dst)} + {Pos(Gap(dst)), dst}
  }

  function ShiftNames(k: nat): (s: set<Name>) {
    {Prefixed(k, XScaled), Prefixed(k, XRound), Prefixed(k, XShift)}
  }

  function ProductNames(k: nat, out: Name): (s: set<Name>) {
    {Prefixed(k, QCentred), out}
  }

  lemma Apart(defined: set<Name>, first: set<Name>, second: set<Name>)
    requires first + second !! defined && second !! first
    ensures first !! defined && second !! defined + first
  {
  }

  lemma ApartFromBoth(a: set<Name>, b: set<Name>, c: set<Name>)
    requires c !! a && c !! b
    ensures c !! a + b
  {
  }

  // ---- what the operators do -----------------------------------------------------------------------

  ghost function Pointwise(t: Tensor, f: real -> real): (r: Tensor) {
    Tensor(t.dims, seq(|t.data|, i requires 0 <= i < |t.data| => f(t.data[i])))
  }

  ghost predicate ReduceLaw(sem: Semantics, t: Tensor) {
    t.data != [] ==>
      && sem(ReduceMin, [t], 0) == Unit(|t.dims|, Least(t.data))
      && sem(ReduceMax, [t], 0) == Unit(|t.dims|, Greatest(t.data))
  }

  ghost predicate EachLaw(sem: Semantics, op: Op, t: Tensor) {
    op.Neg? || op.Relu? || op.Round? ==> sem(op, [t], 0) == Tensor(t.dims, Each(op, t.data))
  }

  ghost predicate ArithmeticLaw(sem: Semantics, op: Op, a: Tensor, b: Tensor) {
    Arithmetic(op) && Combines(op, a, b) ==> sem(op, [a, b], 0) == Combined(op, a, b)
  }

  /** As much of the ONNX operators as the chain uses. */
  ghost predicate Floats(sem: Semantics) {
    && (forall t :: ReduceLaw(sem, t))
    && (forall op, t :: EachLaw(sem, op, t))
    && (forall op, a, b :: ArithmeticLaw(sem, op, a, b))
  }

  lemma OnnxReduces(m: Meaning, t: Tensor)
    ensures ReduceLaw(Onnx(m), t)
  {
  }

  lemma OnnxEach(m: Meaning, op: Op, t: Tensor)
    ensures EachLaw(Onnx(m), op, t)
  {
  }

  lemma OnnxCombines(m: Meaning, op: Op, a: Tensor, b: Tensor)
    ensures ArithmeticLaw(Onnx(m), op, a, b)
  {
  }

  lemma OnnxFloats(m: Meaning)
    ensures Floats(Onnx(m))
  {
    forall t ensures ReduceLaw(Onnx(m), t) {
      OnnxReduces(m, t);
    }
    forall op, t ensures EachLaw(Onnx(m), op, t) {
      OnnxEach(m, op, t);
    }
    forall op, a, b ensures ArithmeticLaw(Onnx(m), op, a, b) {
      OnnxCombines(m, op, a, b);
    }
  }

  lemma CombinedRight(op: Op, a: Tensor, b: Tensor)
    requires Arithmetic(op) && IsUnit(b) && |b.dims| <= |a.dims| && (op.Div? ==> b.data[0] != 0.0)
    ensures Combines(op, a, b) && Combined(op, a, b) == Pointwise(a, v => Operate(op, v, b.data[0]))
  {
    var y := PadTo(b.dims, |a.dims|);
    assert AllOnes(y) && Rank(a, b) == |a.dims|;
    JointSides(a.dims, y);
    if AllOnes(a.dims) {
      assert a.dims == y;
    }
  }

  lemma CombinedLeft(op: Op, a: Tensor, b: Tensor)
    requires Arithmetic(op) && !op.Div? && IsUnit(a) && |a.dims| <= |b.dims|
    ensures Combines(op, a, b) && Combined(op, a, b) == Pointwise(b, v => Operate(op, a.data[0], v))
  {
    var x := PadTo(a.dims, |b.dims|);
    assert AllOnes(x) && Rank(a, b) == |b.dims|;
    JointSides(x, b.dims);
  }

  lemma RightUnit(sem: Semantics, op: Op, rank: nat, a: real, b: Tensor)
    requires Floats(sem) && Arithmetic(op) && IsUnit(b) && |b.dims| <= rank && (op.Div? ==> b.data[0] != 0.0)
    ensures sem(op, [Unit(rank, a), b], 0) == Unit(rank, Operate(op, a, b.data[0]))
  {
    CombinedRight(op, Unit(rank, a), b);
    assert ArithmeticLaw(sem, op, Unit(rank, a), b);
  }

  lemma EachUnit(sem: Semantics, op: Op, rank: nat, a: real)
    requires Floats(sem) && (op.Neg? || op.Relu? || op.Round?)
    ensures sem(op, [Unit(rank, a)], 0) == Unit(rank, Each(op, [a])[0])
  {
    assert EachLaw(sem, op, Unit(rank, a));
    assert Each(op, [a]) == [Each(op, [a])[0]];
  }

  lemma OneInput(sem: Semantics, op: Op, src: Name, dst: Name, end: Env)
    requires Computes(sem, Unary(op, src, dst), end)
    ensures src in end && dst in end && end[dst] == sem(op, [end[src]], 0)
  {
    var node := Unary(op, src, dst);
    assert node.inputs[0] in end && node.outputs[0] in end;
    assert Args(node, end) == [end[src]];
  }

  lemma TwoInputs(sem: Semantics, op: Op, left: Name, right: Name, dst: Name, end: Env)
    requires Computes(sem, Binary(op, left, right, dst), end)
    ensures left in end && right in end && dst in end && end[dst] == sem(op, [end[left], end[right]], 0)
  {
    var node := Binary(op, left, right, dst);
    assert node.inputs[0] in end && node.inputs[1] in end && node.outputs[0] in end;
    assert Args(node, end) == [end[left], end[right]];
  }

  lemma CanRun(op: Op, a: Name, b: Name, dst: Name, defined: set<Name>)
    requires a in defined && b in defined && dst !in defined
    ensures Runnable(Unary(op, a, dst), defined) && Runnable(Binary(op, a, b, dst), defined)
    ensures Outputs(Unary(op, a, dst)) == {dst} && Outputs(Binary(op, a, b, dst)) == {dst}
  {
  }

  lemma UnaryUnaryUnary(mc: Machine, op1: Op, s1: Name, d1: Name, op2: Op, s2: Name, d2: Name, op3: Op, s3: Name,
                        d3: Name, env: Env)
    returns (end: Env)
    requires Works(mc)
    requires s1 in env && (s2 in env || s2 == d1) && (s3 in env || s3 == d1 || s3 == d2)
    requires d1 !in env && d2 !in env && d3 !in env && d1 != d2 && d1 != d3 && d2 != d3
    ensures Adds(mc, [Unary(op1, s1, d1), Unary(op2, s2, d2), Unary(op3, s3, d3)], env, end, {d1, d2, d3})
    ensures end[d1] == mc.sem(op1, [end[s1]], 0)
    ensures end[d2] == mc.sem(op2, [end[s2]], 0)
    ensures end[d3] == mc.sem(op3, [end[s3]], 0)
  {
    CanRun(op1, s1, s1, d1, env.Keys);
    CanRun(op2, s2, s2, d2, env.Keys + {d1});
    CanRun(op3, s3, s3, d3, env.Keys + {d1} + {d2});
    var a, b, c := Unary(op1, s1, d1), Unary(op2, s2, d2), Unary(op3, s3, d3);
    assert TripleLaw(mc, a, b, c, env);
    end :| Adds(mc, [a, b, c], env, end, Outputs(a) + Outputs(b) + Outputs(c))
           && Computes(mc.sem, a, end) && Computes(mc.sem, b, end) && Computes(mc.sem, c, end);
    assert {d1} + {d2} + {d3} == {d1, d2, d3};
    OneInput(mc.sem, op1, s1, d1, end);
    OneInput(mc.sem, op2, s2, d2, end);
    OneInput(mc.sem, op3, s3, d3, end);
  }

  lemma BinaryBinary(mc: Machine, op1: Op, l1: Name, r1: Name, d1: Name, op2: Op, l2: Name, r2: Name, d2: Name,
                     env: Env)
    returns (end: Env)
    requires Works(mc)
    requires l1 in env && r1 in env && (l2 in env || l2 == d1) && (r2 in env || r2 == d1)
    requires d1 !in env && d2 !in env && d1 != d2
    ensures Adds(mc, [Binary(op1, l1, r1, d1), Binary(op2, l2, r2, d2)], env, end, {d1, d2})
    ensures end[d1] == mc.sem(op1, [end[l1], end[r1]], 0)
    ensures end[d2] == mc.sem(op2, [end[l2], end[r2]], 0)
  {
    CanRun(op1, l1, r1, d1, env.Keys);
    CanRun(op2, l2, r2, d2, env.Keys + {d1});
    var a, b := Binary(op1, l1, r1, d1), Binary(op2, l2, r2, d2);
    assert PairLaw(mc, a, b, env);
    end :| Adds(mc, [a, b], env, end, Outputs(a) + Outputs(b)) && Computes(mc.sem, a, end) && Computes(mc.sem, b, end);
    assert {d1} + {d2} == {d1, d2};
    TwoInputs(mc.sem, op1, l1, r1, d1, end);
    TwoInputs(mc.sem, op2, l2, r2, d2, end);
  }

  lemma UnaryBinary(mc: Machine, op1: Op, s1: Name, d1: Name, op2: Op, l2: Name, r2: Name, d2: Name, env: Env)
    returns (end: Env)
    requires Works(mc)
    requires s1 in env && (l2 in env || l2 == d1) && (r2 in env || r2 == d1)
    requires d1 !in env && d2 !in env && d1 != d2
    ensures Adds(mc, [Unary(op1, s1, d1), Binary(op2, l2, r2, d2)], env, end, {d1, d2})
    ensures end[d1] == mc.sem(op1, [end[s1]], 0)
    ensures end[d2] == mc.sem(op2, [end[l2], end[r2]], 0)
  {
    CanRun(op1, s1, s1, d1, env.Keys);
    CanRun(op2, l2, r2, d2, env.Keys + {d1});
    var a, b := Unary(op1, s1, d1), Binary(op2, l2, r2, d2);
    assert PairLaw(mc, a, b, env);
    end :| Adds(mc, [a, b], env, end, Outputs(a) + Outputs(b)) && Computes(mc.sem, a, end) && Computes(mc.sem, b, end);
    assert {d1} + {d2} == {d1, d2};
    OneInput(mc.sem, op1, s1, d1, end);
    TwoInputs(mc.sem, op2, l2, r2, d2, end);
  }

  lemma BinaryUnaryUnary(mc: Machine, op1: Op, l1: Name, r1: Name, d1: Name, op2: Op, s2: Name, d2: Name, op3: Op,
                         s3: Name, d3: Name, env: Env)
    returns (end: Env)
    requires Works(mc)
    requires l1 in env && r1 in env && (s2 in env || s2 == d1) && (s3 in env || s3 == d1 || s3 == d2)
    requires d1 !in env && d2 !in env && d3 !in env && d1 != d2 && d1 != d3 && d2 != d3
    ensures Adds(mc, [Binary(op1, l1, r1, d1), Unary(op2, s2, d2), Unary(op3, s3, d3)], env, end, {d1, d2, d3})
    ensures end[d1] == mc.sem(op1, [end[l1], end[r1]], 0)
    ensures end[d2] == mc.sem(op2, [end[s2]], 0)
    ensures end[d3] == mc.sem(op3, [end[s3]], 0)
  {
    CanRun(op1, l1, r1, d1, env.Keys);
    CanRun(op2, s2, s2, d2, env.Keys + {d1});
    CanRun(op3, s3, s3, d3, env.Keys + {d1} + {d2});
    var a, b, c := Binary(op1, l1, r1, d1), Unary(op2, s2, d2), Unary(op3, s3, d3);
    assert TripleLaw(mc, a, b, c, env);
    end :| Adds(mc, [a, b, c], env, end, Outputs(a) + Outputs(b) + Outputs(c))
           && Computes(mc.sem, a, end) && Computes(mc.sem, b, end) && Computes(mc.sem, c, end);
    assert {d1} + {d2} + {d3} == {d1, d2, d3};
    TwoInputs(mc.sem, op1, l1, r1, d1, end);
    OneInput(mc.sem, op2, s2, d2, end);
    OneInput(mc.sem, op3, s3, d3, end);
  }

  lemma BinaryUnaryBinary(mc: Machine, op1: Op, l1: Name, r1: Name, d1: Name, op2: Op, s2: Name, d2: Name, op3: Op,
                          l3: Name, r3: Name, d3: Name, env: Env)
    returns (end: Env)
    requires Works(mc)
    requires l1 in env && r1 in env && (s2 in env || s2 == d1)
    requires (l3 in env || l3 == d1 || l3 == d2) && (r3 in env || r3 == d1 || r3 == d2)
    requires d1 !in env && d2 !in env && d3 !in env && d1 != d2 && d1 != d3 && d2 != d3
    ensures Adds(mc, [Binary(op1, l1, r1, d1), Unary(op2, s2, d2), Binary(op3, l3, r3, d3)], env, end, {d1, d2, d3})
    ensures end[d1] == mc.sem(op1, [end[l1], end[r1]], 0)
    ensures end[d2] == mc.sem(op2, [end[s2]], 0)
    ensures end[d3] == mc.sem(op3, [end[l3], end[r3]], 0)
  {
    CanRun(op1, l1, r1, d1, env.Keys);
    CanRun(op2, s2, s2, d2, env.Keys + {d1});
    CanRun(op3, l3, r3, d3, env.Keys + {d1} + {d2});
    var a, b, c := Binary(op1, l1, r1, d1), Unary(op2, s2, d2), Binary(op3, l3, r3, d3);
    assert TripleLaw(mc, a, b, c, env);
    end :| Adds(mc, [a, b, c], env, end, Outputs(a) + Outputs(b) + Outputs(c))
           && Computes(mc.sem, a, end) && Computes(mc.sem, b, end) && Computes(mc.sem, c, end);
    assert {d1} + {d2} + {d3} == {d1, d2, d3};
    TwoInputs(mc.sem, op1, l1, r1, d1, end);
    OneInput(mc.sem, op2, s2, d2, end);
    TwoInputs(mc.sem, op3, l3, r3, d3, end);
  }

  // ---- the parts of the chain ----------------------------------------------------------------------

  lemma ExtremeValues(sem: Semantics, t: Tensor, least: Tensor, greatest: Tensor, negated: Tensor)
    requires Floats(sem) && t.data != []
    requires least == sem(ReduceMin, [t], 0) && greatest == sem(ReduceMax, [t], 0) && negated == sem(Op.Neg, [least], 0)
    ensures greatest == Unit(|t.dims|, Greatest(t.data)) && negated == Unit(|t.dims|, -Least(t.data))
  {
    assert ReduceLaw(sem, t);
    EachUnit(sem, Op.Neg, |t.dims|, Least(t.data));
  }

  lemma ExtremesRun(mc: Machine, k: nat, x: Name, env: Env) returns (end: Env)
    requires Floats(mc.sem) && Works(mc) && x in env && env[x].data != []
    requires ExtremeNames(k) !! env.Keys
    ensures Adds(mc, ExtremeNodes(k, x), env, end, ExtremeNames(k))
    ensures end[Prefixed(k, Max)] == Unit(|env[x].dims|, Greatest(env[x].data))
    ensures end[Prefixed(k, MinNeg)] == Unit(|env[x].dims|, -Least(env[x].data))
  {
    var lo, hi, neg := Prefixed(k, Min), Prefixed(k, Max), Prefixed(k, MinNeg);
    end := UnaryUnaryUnary(mc, ReduceMin, x, lo, ReduceMax, x, hi, Op.Neg, lo, neg, env);
    ExtremeValues(mc.sem, env[x], end[lo], end[hi], end[neg]);
  }

  lemma BoundValues(sem: Semantics, rank: nat, data: seq<real>, positive: Tensor, low: Tensor, high: Tensor)
    requires Floats(sem) && data != []
    requires positive == sem(Op.Relu, [Unit(rank, -Least(data))], 0)
    requires low == sem(Op.Neg, [positive], 0) && high == sem(Op.Relu, [Unit(rank, Greatest(data))], 0)
    ensures low == Unit(rank, ReluLow(data)) && high == Unit(rank, Quantization.Relu(Greatest(data)))
  {
    EachUnit(sem, Op.Relu, rank, -Least(data));
    EachUnit(sem, Op.Neg, rank, Quantization.Relu(-Least(data)));
    EachUnit(sem, Op.Relu, rank, Greatest(data));
  }

  lemma BoundsRun(mc: Machine, k: nat, rank: nat, data: seq<real>, env: Env) returns (end: Env)
    requires Floats(mc.sem) && Works(mc) && data != [] && Prefixed(k, MinNeg) in env && Prefixed(k, Max) in env
    requires env[Prefixed(k, MinNeg)] == Unit(rank, -Least(data)) && env[Prefixed(k, Max)] == Unit(rank, Greatest(data))
    requires BoundNames(k) !! env.Keys
    ensures Adds(mc, BoundNodes(k), env, end, BoundNames(k))
    ensures end[Prefixed(k, Low)] == Unit(rank, ReluLow(data))
    ensures end[Prefixed(k, High)] == Unit(rank, Quantization.Relu(Greatest(data)))
  {
    var pos, low, high := Prefixed(k, MinNegPos), Prefixed(k, Low), Prefixed(k, High);
    end := UnaryUnaryUnary(mc, Op.Relu, Prefixed(k, MinNeg), pos, Op.Neg, pos, low, Op.Relu, Prefixed(k, Max), high,
                           env);
    BoundValues(mc.sem, rank, data, end[pos], end[low], end[high]);
  }

  lemma ScaleValues(sem: Semantics, rank: nat, data: seq<real>, range: Tensor, scale: Tensor)
    requires Floats(sem) && data != [] && rank >= 1
    requires range == sem(Sub, [Unit(rank, Quantization.Relu(Greatest(data))), Unit(rank, ReluLow(data))], 0)
    requires scale == sem(Div, [range, Unit(1, 255.0)], 0)
    ensures scale == Unit(rank, ReluScale(data))
  {
    var high, low := Quantization.Relu(Greatest(data)), ReluLow(data);
    RightUnit(sem, Sub, rank, high, Unit(rank, low));
    RightUnit(sem, Div, rank, high - low, Unit(1, 255.0));
  }

  lemma ScaleRun(mc: Machine, k: nat, scale: Name, rank: nat, data: seq<real>, env: Env) returns (end: Env)
    requires Floats(mc.sem) && Works(mc) && data != [] && rank >= 1
    requires Prefixed(k, Low) in env && Prefixed(k, High) in env && Prefixed(k, TwoFiftyFive) in env
    requires env[Prefixed(k, Low)] == Unit(rank, ReluLow(data))
    requires env[Prefixed(k, High)] == Unit(rank, Quantization.Relu(Greatest(data)))
    requires env[Prefixed(k, TwoFiftyFive)] == Unit(1, 255.0)
    requires ScaleNames(k, scale) !! env.Keys && scale != Prefixed(k, Range)
    ensures Adds(mc, ScaleNodes(k, scale), env, end, ScaleNames(k, scale))
    ensures end[scale] == Unit(rank, ReluScale(data))
  {
    var range := Prefixed(k, Range);
    end := BinaryBinary(mc, Sub, Prefixed(k, High), Prefixed(k, Low), range, Div, range, Prefixed(k, TwoFiftyFive),
                        scale, env);
    ScaleValues(mc.sem, rank, data, end[range], end[scale]);
  }

  lemma ZeroPointValues(sem: Semantics, rank: nat, low: real, s: real, scaled: Tensor, raw: Tensor, rounded: Tensor)
    requires Floats(sem) && s != 0.0
    requires scaled == sem(Div, [Unit(rank, low), Unit(rank, s)], 0)
    requires raw == sem(Op.Neg, [scaled], 0) && rounded == sem(Op.Round, [raw], 0)
    ensures rounded == Unit(rank, RoundEven(-(low / s)) as real)
  {
    RightUnit(sem, Div, rank, low, Unit(rank, s));
    EachUnit(sem, Op.Neg, rank, low / s);
    EachUnit(sem, Op.Round, rank, -(low / s));
  }

  lemma ZeroPointRun(mc: Machine, k: nat, scale: Name, rank: nat, low: real, s: real, env: Env) returns (end: Env)
    requires Floats(mc.sem) && Works(mc) && s != 0.0 && Prefixed(k, Low) in env && scale in env
    requires env[Prefixed(k, Low)] == Unit(rank, low) && env[scale] == Unit(rank, s)
    requires ZeroPointNames(k) !! env.Keys
    ensures Adds(mc, ZeroPointNodes(k, scale), env, end, ZeroPointNames(k))
    ensures end[Prefixed(k, ZeroPointRound)] == Unit(rank, RoundEven(-(low / s)) as real)
  {
    var scaled, raw, rounded := Prefixed(k, LowScaled), Prefixed(k, ZeroPointRaw), Prefixed(k, ZeroPointRound);
    end := BinaryUnaryUnary(mc, Div, Prefixed(k, Low), scale, scaled, Op.Neg, scaled, raw, Op.Round, raw, rounded, env);
    ZeroPointValues(mc.sem, rank, low, s, end[scaled], end[raw], end[rounded]);
  }

  lemma GapValue(sem: Semantics, t: Tensor)
    requires Floats(sem) && |t.dims| >= 1
    ensures sem(Sub, [Unit(1, 255.0), t], 0) == Pointwise(t, v => 255.0 - v)
  {
    CombinedLeft(Sub, Unit(1, 255.0), t);
    assert ArithmeticLaw(sem, Sub, Unit(1, 255.0), t);
  }

  lemma ReluValue(sem: Semantics, t: Tensor)
    requires Floats(sem)
    ensures sem(Op.Relu, [t], 0) == Pointwise(t, v => Quantization.Relu(v))
  {
    assert EachLaw(sem, Op.Relu, t);
  }

  lemma RoundValue(sem: Semantics, t: Tensor)
    requires Floats(sem)
    ensures sem(Op.Round, [t], 0) == Pointwise(t, v => RoundEven(v) as real)
  {
    assert EachLaw(sem, Op.Round, t);
  }

  lemma ClampValues(sem: Semantics, t: Tensor, pos: Tensor, gap: Tensor, gapPos: Tensor, result: Tensor)
    requires Floats(sem) && |t.dims| >= 1
    requires pos == sem(Op.Relu, [t], 0) && gap == sem(Sub, [Unit(1, 255.0), pos], 0)
    requires gapPos == sem(Op.Relu, [gap], 0) && result == sem(Sub, [Unit(1, 255.0), gapPos], 0)
    ensures result == Pointwise(t, v => ReluSaturate(v))
  {
    ReluValue(sem, t);
    GapValue(sem, pos);
    ReluValue(sem, gap);
    GapValue(sem, gapPos);
  }

  lemma ClampRun(mc: Machine, k: nat, src: Name, dst: Name, env: Env) returns (end: Env)
    requires Floats(mc.sem) && Works(mc) && src in env && |env[src].dims| >= 1
    requires Prefixed(k, TwoFiftyFive) in env && env[Prefixed(k, TwoFiftyFive)] == Unit(1, 255.0)
    requires !dst.Pos? && !dst.Gap?
    requires ClampNames(dst) !! env.Keys
    ensures Adds(mc, ClampNodes(k, src, dst), env, end, ClampNames(dst))
    ensures end[dst] == Pointwise(env[src], v => ReluSaturate(v))
  {
    var top := Prefixed(k, TwoFiftyFive);
    var mid := UnaryBinary(mc, Op.Relu, src, Pos(dst), Sub, top, Pos(dst), Gap(dst), env);
    end := UnaryBinary(mc, Op.Relu, Gap(dst), Pos(Gap(dst)), Sub, top, Pos(Gap(dst)), dst, mid);
    var first := [Unary(Op.Relu, src, Pos(dst)), Binary(Sub, top, Pos(dst), Gap(dst))];
    var second := [Unary(Op.Relu, Gap(dst), Pos(Gap(dst))), Binary(Sub, top, Pos(Gap(dst)), dst)];
    AddsAppend(mc, first, second, env, mid, end, {Pos(dst), Gap(dst)}, {Pos(Gap(dst)), dst});
    assert first + second == ClampNodes(k, src, dst);
    ClampValues(mc.sem, env[src], end[Pos(dst)], end[Gap(dst)], end[Pos(Gap(dst))], end[dst]);
  }

  lemma WithUnit(sem: Semantics, op: Op, t: Tensor, s: real)
    requires Floats(sem) && Arithmetic(op) && (op.Div? ==> s != 0.0)
    ensures sem(op, [t, Unit(|t.dims|, s)], 0) == Pointwise(t, v => Operate(op, v, s))
  {
    CombinedRight(op, t, Unit(|t.dims|, s));
    assert ArithmeticLaw(sem, op, t, Unit(|t.dims|, s));
  }

  lemma ShiftValues(sem: Semantics, t: Tensor, s: real, z: real, scaled: Tensor, rounded: Tensor, shifted: Tensor)
    requires Floats(sem) && |t.dims| >= 1 && s != 0.0
    requires scaled == sem(Div, [t, Unit(|t.dims|, s)], 0) && rounded == sem(Op.Round, [scaled], 0)
    requires shifted == sem(Add, [rounded, Unit(|t.dims|, z)], 0)
    ensures shifted == Pointwise(t, v => RoundEven(Operate(Div, v, s)) as real + z)
  {
    WithUnit(sem, Div, t, s);
    RoundValue(sem, scaled);
    WithUnit(sem, Add, rounded, z);
  }

  lemma ShiftRun(mc: Machine, k: nat, x: Name, scale: Name, zero: Name, s: real, z: real, env: Env) returns (end: Env)
    requires Floats(mc.sem) && Works(mc) && s != 0.0 && x in env && scale in env && zero in env && |env[x].dims| >= 1
    requires env[scale] == Unit(|env[x].dims|, s) && env[zero] == Unit(|env[x].dims|, z)
    requires ShiftNames(k) !! env.Keys
    ensures Adds(mc, ShiftNodes(k, x, scale, zero), env, end, ShiftNames(k))
    ensures end[Prefixed(k, XShift)] == Pointwise(env[x], v => RoundEven(Operate(Div, v, s)) as real + z)
  {
    var scaled, rounded, shifted := Prefixed(k, XScaled), Prefixed(k, XRound), Prefixed(k, XShift);
    end := BinaryUnaryBinary(mc, Div, x, scale, scaled, Op.Round, scaled, rounded, Add, rounded, zero, shifted, env);
    ShiftValues(mc.sem, env[x], s, z, end[scaled], end[rounded], end[shifted]);
  }

  lemma ProductRun(mc: Machine, k: nat, zero: Name, out: Name, t: Tensor, z: real, env: Env) returns (end: Env)
    requires Floats(mc.sem) && Works(mc) && Prefixed(k, Q) in env && zero in env && Prefixed(k, WeightsCentred) in env
    requires env[Prefixed(k, Q)] == t && env[zero] == Unit(|t.dims|, z)
    requires ProductNames(k, out) !! env.Keys && out != Prefixed(k, QCentred)
    ensures Adds(mc, ProductNodes(k, zero, out), env, end, ProductNames(k, out))
    ensures end[out] == mc.sem(MatMul, [Shifted(t, z), env[Prefixed(k, WeightsCentred)]], 0)
  {
    var centred := Prefixed(k, QCentred);
    end := BinaryBinary(mc, Sub, Prefixed(k, Q), zero, centred, MatMul, centred, Prefixed(k, WeightsCentred), out, env);
    CombinedRight(Sub, t, Unit(|t.dims|, z));
    assert ArithmeticLaw(mc.sem, Sub, t, Unit(|t.dims|, z));
    assert end[centred] == Shifted(t, z);
  }

  // ---- the whole chain -----------------------------------------------------------------------------

  predicate Original(n: Name) {
    n.Given? || n.ReverseIndices?
  }

  /** The value that the rewrite starts from, and its two constants. */
  ghost predicate Ready(env: Env, k: nat, x: Name) {
    && x in env && |env[x].dims| >= 1 && SomeNonzero(env[x].data)
    && Prefixed(k, TwoFiftyFive) in env && env[Prefixed(k, TwoFiftyFive)] == Unit(1, 255.0)
    && Prefixed(k, WeightsCentred) in env
  }

  lemma LowHighRun(mc: Machine, k: nat, x: Name, env: Env) returns (end: Env)
    requires Floats(mc.sem) && Works(mc) && x in env && env[x].data != []
    requires ExtremeNames(k) + BoundNames(k) !! env.Keys
    ensures Adds(mc, ExtremeNodes(k, x) + BoundNodes(k), env, end, ExtremeNames(k) + BoundNames(k))
    ensures end[Prefixed(k, Low)] == Unit(|env[x].dims|, ReluLow(env[x].data))
    ensures end[Prefixed(k, High)] == Unit(|env[x].dims|, Quantization.Relu(Greatest(env[x].data)))
  {
    var mid := ExtremesRun(mc, k, x, env);
    assert BoundNames(k) !! mid.Keys;
    end := BoundsRun(mc, k, |env[x].dims|, env[x].data, mid);
    AddsAppend(mc, ExtremeNodes(k, x), BoundNodes(k), env, mid, end, ExtremeNames(k), BoundNames(k));
  }

  function ScaleChainNames(k: nat, scale: Name): (s: set<Name>) {
    ExtremeNames(k) + BoundNames(k) + ScaleNames(k, scale)
  }

  lemma ScaleChainRun(mc: Machine, k: nat, x: Name, scale: Name, env: Env) returns (end: Env)
    requires Floats(mc.sem) && Works(mc) && Ready(env, k, x) && Original(scale)
    requires ScaleChainNames(k, scale) !! env.Keys
    ensures Adds(mc, ScaleChain(k, x, scale), env, end, ScaleChainNames(k, scale))
    ensures end[Prefixed(k, Low)] == Unit(|env[x].dims|, ReluLow(env[x].data))
    ensures end[scale] == Unit(|env[x].dims|, ReluScale(env[x].data))
  {
    var mid := LowHighRun(mc, k, x, env);
    assert ScaleNames(k, scale) !! mid.Keys;
    end := ScaleRun(mc, k, scale, |env[x].dims|, env[x].data, mid);
    AddsAppend(mc, ExtremeNodes(k, x) + BoundNodes(k), ScaleNodes(k, scale), env, mid, end,
               ExtremeNames(k) + BoundNames(k), ScaleNames(k, scale));
  }

  function ZeroPointChainNames(k: nat, zero: Name): (s: set<Name>) {
    ZeroPointNames(k) + ClampNames(zero)
  }

  lemma SaturatedUnit(rank: nat, a: real)
    ensures Pointwise(Unit(rank, a), v => ReluSaturate(v)) == Unit(rank, ReluSaturate(a))
  {
  }

  lemma ZeroPointChainRun(mc: Machine, k: nat, scale: Name, zero: Name, rank: nat, data: seq<real>,
                          env: Env)
    returns (end: Env)
    requires Floats(mc.sem) && Works(mc) && rank >= 1 && data != [] && ReluScale(data) != 0.0 && zero.Float?
    requires Prefixed(k, Low) in env && env[Prefixed(k, Low)] == Unit(rank, ReluLow(data))
    requires scale in env && env[scale] == Unit(rank, ReluScale(data))
    requires Prefixed(k, TwoFiftyFive) in env && env[Prefixed(k, TwoFiftyFive)] == Unit(1, 255.0)
    requires ZeroPointChainNames(k, zero) !! env.Keys
    ensures Adds(mc, ZeroPointChain(k, scale, zero), env, end, ZeroPointChainNames(k, zero))
    ensures end[zero] == Unit(rank, ReluZeroPoint(data))
  {
    var mid := ZeroPointRun(mc, k, scale, rank, ReluLow(data), ReluScale(data), env);
    assert ClampNames(zero) !! mid.Keys;
    end := ClampRun(mc, k, Prefixed(k, ZeroPointRound), zero, mid);
    SaturatedUnit(rank, RoundEven(-(ReluLow(data) / ReluScale(data))) as real);
    AddsAppend(mc, ZeroPointNodes(k, scale), ClampNodes(k, Prefixed(k, ZeroPointRound), zero), env, mid, end,
               ZeroPointNames(k), ClampNames(zero));
  }

  function QuantizedChainNames(k: nat): (s: set<Name>) {
    ShiftNames(k) + ClampNames(Prefixed(k, Q))
  }

  lemma SaturatedShift(t: Tensor, s: real, z: real)
    requires t.data != [] && s == ReluScale(t.data) && s != 0.0 && z == ReluZeroPoint(t.data)
    ensures Pointwise(Pointwise(t, v => RoundEven(Operate(Div, v, s)) as real + z), v => ReluSaturate(v))
            == Pointwise(t, v => ReluQuantized(t.data, v))
  {
  }

  lemma QuantizedChainRun(mc: Machine, k: nat, x: Name, scale: Name, zero: Name, env: Env) returns (end: Env)
    requires Floats(mc.sem) && Works(mc) && Ready(env, k, x) && ReluScale(env[x].data) != 0.0
    requires scale in env && env[scale] == Unit(|env[x].dims|, ReluScale(env[x].data))
    requires zero in env && env[zero] == Unit(|env[x].dims|, ReluZeroPoint(env[x].data))
    requires QuantizedChainNames(k) !! env.Keys
    ensures Adds(mc, QuantizedChain(k, x, scale, zero), env, end, QuantizedChainNames(k))
    ensures end[Prefixed(k, Q)] == Pointwise(env[x], v => ReluQuantized(env[x].data, v))
  {
    var s, z := ReluScale(env[x].data), ReluZeroPoint(env[x].data);
    var mid := ShiftRun(mc, k, x, scale, zero, s, z, env);
    assert ClampNames(Prefixed(k, Q)) !! mid.Keys;
    end := ClampRun(mc, k, Prefixed(k, XShift), Prefixed(k, Q), mid);
    SaturatedShift(env[x], s, z);
    AddsAppend(mc, ShiftNodes(k, x, scale, zero), ClampNodes(k, Prefixed(k, XShift), Prefixed(k, Q)), env, mid, end,
               ShiftNames(k), ClampNames(Prefixed(k, Q)));
  }

  function ScaledNames(k: nat, scale: Name, zero: Name): (s: set<Name>) {
    ScaleChainNames(k, scale) + ZeroPointChainNames(k, zero)
  }

  lemma ZeroPointApart(k: nat, scale: Name, zero: Name)
    requires Original(scale) && zero.Float?
    ensures ZeroPointChainNames(k, zero) !! ScaleChainNames(k, scale)
  {
  }

  lemma ScaledRun(mc: Machine, k: nat, x: Name, scale: Name, zero: Name, env: Env) returns (end: Env)
    requires Floats(mc.sem) && Works(mc) && Ready(env, k, x) && Original(scale)
    requires zero.Float? && ReluScale(env[x].data) != 0.0
    requires ScaledNames(k, scale, zero) !! env.Keys
    ensures Adds(mc, ScaleChain(k, x, scale) + ZeroPointChain(k, scale, zero), env, end, ScaledNames(k, scale, zero))
    ensures end[scale] == Unit(|env[x].dims|, ReluScale(env[x].data))
    ensures end[zero] == Unit(|env[x].dims|, ReluZeroPoint(env[x].data))
  {
    ZeroPointApart(k, scale, zero);
    Apart(env.Keys, ScaleChainNames(k, scale), ZeroPointChainNames(k, zero));
    var mid := ScaleChainRun(mc, k, x, scale, env);
    end := ZeroPointChainRun(mc, k, scale, zero, |env[x].dims|, env[x].data, mid);
    AddsAppend(mc, ScaleChain(k, x, scale), ZeroPointChain(k, scale, zero), env, mid, end, ScaleChainNames(k, scale),
               ZeroPointChainNames(k, zero));
  }

  function FloatNames(k: nat, scale: Name, zero: Name): (s: set<Name>) {
    ScaledNames(k, scale, zero) + QuantizedChainNames(k)
  }

  lemma QuantizedApartFromScale(k: nat, scale: Name)
    requires Original(scale)
    ensures QuantizedChainNames(k) !! ScaleChainNames(k, scale)
  {
  }

  lemma QuantizedApartFromZeroPoint(k: nat, zero: Name)
    requires zero.Float?
    ensures QuantizedChainNames(k) !! ZeroPointChainNames(k, zero)
  {
  }

  lemma QuantizedApart(k: nat, scale: Name, zero: Name)
    requires Original(scale) && zero.Float?
    ensures QuantizedChainNames(k) !! ScaledNames(k, scale, zero)
  {
    QuantizedApartFromScale(k, scale);
    QuantizedApartFromZeroPoint(k, zero);
    ApartFromBoth(ScaleChainNames(k, scale), ZeroPointChainNames(k, zero), QuantizedChainNames(k));
  }

  lemma FloatRun(mc: Machine, k: nat, x: Name, scale: Name, zero: Name, env: Env) returns (end: Env)
    requires Floats(mc.sem) && Works(mc) && Ready(env, k, x) && Original(scale)
    requires zero.Float? && ReluScale(env[x].data) != 0.0
    requires FloatNames(k, scale, zero) !! env.Keys
    ensures Adds(mc, FloatChain(k, x, scale, zero), env, end, FloatNames(k, scale, zero))
    ensures end[scale] == Unit(|env[x].dims|, ReluScale(env[x].data))
    ensures end[zero] == Unit(|env[x].dims|, ReluZeroPoint(env[x].data))
    ensures end[Prefixed(k, Q)] == Pointwise(env[x], v => ReluQuantized(env[x].data, v))
  {
    QuantizedApart(k, scale, zero);
    Apart(env.Keys, ScaledNames(k, scale, zero), QuantizedChainNames(k));
    var mid := ScaledRun(mc, k, x, scale, zero, env);
    end := QuantizedChainRun(mc, k, x, scale, zero, mid);
    AddsAppend(mc, ScaleChain(k, x, scale) + ZeroPointChain(k, scale, zero), QuantizedChain(k, x, scale, zero), env,
               mid, end,
               ScaledNames(k, scale, zero), QuantizedChainNames(k));
  }

  lemma QuantizedPointwise(t: Tensor)
    requires SomeNonzero(t.data)
    ensures ReluScale(t.data) == Scale(t.data) > 0.0 && ReluZeroPoint(t.data) == ZeroPoint(t.data) as real
    ensures Pointwise(t, v => ReluQuantized(t.data, v)) == Tensor(t.dims, QuantizedAll(t.data))
  {
    ZeroPointBothForms(t.data);
    forall i | 0 <= i < |t.data| ensures ReluQuantized(t.data, t.data[i]) == Quantized(t.data, t.data[i]) {
      ChainIsDynamicQuantizeLinear(t.data, t.data[i]);
    }
  }

  lemma ProductApartFromScale(k: nat, scale: Name, out: Name)
    requires Original(scale) && Original(out) && scale != out
    ensures ProductNames(k, out) !! ScaleChainNames(k, scale)
  {
  }

  lemma ProductApartFromRest(k: nat, zero: Name, out: Name)
    requires zero.Float? && Original(out)
    ensures ProductNames(k, out) !! ZeroPointChainNames(k, zero) && ProductNames(k, out) !! QuantizedChainNames(k)
  {
  }

  lemma ProductApart(k: nat, scale: Name, zero: Name, out: Name)
    requires Original(scale) && zero.Float? && Original(out) && scale != out
    ensures ProductNames(k, out) !! FloatNames(k, scale, zero)
  {
    ProductApartFromScale(k, scale, out);
    ProductApartFromRest(k, zero, out);
    ApartFromBoth(ScaleChainNames(k, scale), ZeroPointChainNames(k, zero), ProductNames(k, out));
    ApartFromBoth(ScaledNames(k, scale, zero), QuantizedChainNames(k), ProductNames(k, out));
  }

  /** The names that the chain writes. */
  function ChainNames(k: nat, scale: Name, zeroPoint: Name, out: Name): (s: set<Name>) {
    FloatNames(k, scale, Float(zeroPoint)) + ProductNames(k, out)
  }

  /**
   * From the value that DynamicQuantizeLinear would read, the chain leaves the scale of DynamicQuantizeLinear under
   * its name, and under the name of the Cast's output the product of the centred quantised value and the weights.
   */
  lemma ChainRun(mc: Machine, k: nat, x: Name, scale: Name, zeroPoint: Name, out: Name, env: Env) returns (end: Env)
    requires Floats(mc.sem) && Works(mc) && Ready(env, k, x) && Original(scale) && Original(out)
    requires ChainNames(k, scale, zeroPoint, out) !! env.Keys && scale != out
    ensures Adds(mc, Chain(k, x, scale, zeroPoint, out), env, end, ChainNames(k, scale, zeroPoint, out))
    ensures end[scale] == Unit(|env[x].dims|, Scale(env[x].data))
    ensures end[out]
            == mc.sem(MatMul, [Shifted(Tensor(env[x].dims, QuantizedAll(env[x].data)), ZeroPoint(env[x].data) as real),
                               env[Prefixed(k, WeightsCentred)]], 0)
  {
    var t, zero := env[x], Float(zeroPoint);
    QuantizedPointwise(t);
    ProductApart(k, scale, zero, out);
    Apart(env.Keys, FloatNames(k, scale, zero), ProductNames(k, out));
    var mid := FloatRun(mc, k, x, scale, zero, env);
    end := ProductRun(mc, k, zero, out, Tensor(t.dims, QuantizedAll(t.data)), ZeroPoint(t.data) as real, mid);
    AddsAppend(mc, FloatChain(k, x, scale, zero), ProductNodes(k, zero, out), env, mid, end,
               FloatNames(k, scale, zero), ProductNames(k, out));
  }
}
