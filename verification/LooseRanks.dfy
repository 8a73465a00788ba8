/**
 * Which names carry more axes after the pass, and how many: the scales, and what arithmetic makes of them until an
 * operand has the axes.
 */
module LooseRanks {
  import opened Common
  import opened Quantization
  import opened OnnxGraph
  import opened OnnxOrder
  import opened OnnxRun
  import opened Tensors
  import opened DynamicMatmuls
  import opened MatmulNext
  import opened MatmulValues
  import opened MatmulPass
  import opened MatmulPlaces

  /** Reads one tensor with a value and writes three names. */
  predicate Quantizer(n: Node, end: Env) {
    n.op.DynamicQuantizeLinear? && |n.inputs| == 1 && |n.outputs| == 3 && n.inputs[0] in end
  }

  /** Every quantised tensor has an axis and an element other than zero. */
  ghost predicate AllNonzero(nodes: seq<Node>, end: Env) {
    forall n :: n in nodes && Quantizer(n, end) ==> |end[n.inputs[0]].dims| >= 1 && SomeNonzero(end[n.inputs[0]].data)
  }

  /** The rank that the result of a broadcasting operator reaches. */
  ghost function Widest(loose: Loose, n: Node, end: Env): (r: nat)
    requires Broadcasting(n, end)
  {
    var a, b := Reach(loose, end, n.inputs[0]), Reach(loose, end, n.inputs[1]);
    if a < b then b else a
  }

  /** The rank that it has in the original run. */
  ghost function Narrow(n: Node, end: Env): (r: nat)
    requires Broadcasting(n, end)
  {
    Rank(end[n.inputs[0]], end[n.inputs[1]])
  }

  /** What one more node adds to the loose names. */
  ghost function Loosen(loose: Loose, n: Node, end: Env): (r: Loose) {
    if Quantizer(n, end) then loose[n.outputs[1] := Reach(loose, end, n.inputs[0])]
    else if Broadcasting(n, end) && Widest(loose, n, end) > Narrow(n, end) then
      loose[n.outputs[0] := Widest(loose, n, end)]
    else loose
  }

  /** The loose names of a list, each with the rank that it reaches. */
  ghost function Loosened(nodes: seq<Node>, end: Env): (r: Loose) {
    if nodes == [] then map[] else Loosen(Loosened(nodes[..|nodes| - 1], end), nodes[|nodes| - 1], end)
  }

  /** What reads a loose name is a broadcasting operator. */
  ghost predicate AllCombined(nodes: seq<Node>, end: Env) {
    forall n :: n in nodes && ReadsLoose(n, Loosened(nodes, end)) ==> Broadcasting(n, end)
  }

  // ---- the loose names as the list is read ---------------------------------------------------------

  lemma LoosenOutputs(loose: Loose, n: Node, end: Env, o: Name)
    ensures o !in n.outputs ==> (o in Loosen(loose, n, end) <==> o in loose)
    ensures o !in n.outputs && o in loose ==> Loosen(loose, n, end)[o] == loose[o]
  {
  }

  lemma {:induction false} LoosenedWritten(nodes: seq<Node>, end: Env)
    ensures Loosened(nodes, end).Keys <= AllOutputs(nodes)
  {
    if nodes != [] {
      var i := |nodes| - 1;
      LoosenedWritten(nodes[..i], end);
      assert nodes == nodes[..i] + [nodes[i]];
      OutputsAppend(nodes[..i], [nodes[i]]);
    }
  }

  /** What a prefix settles about its names stays settled. */
  lemma {:induction false} LoosenedStable(nodes: seq<Node>, defined: set<Name>, end: Env, i: nat, o: Name)
    requires Sorted(nodes, defined) && i <= |nodes| && o in defined + AllOutputs(nodes[..i])
    ensures o in Loosened(nodes, end) <==> o in Loosened(nodes[..i], end)
    ensures o in Loosened(nodes, end) ==> Loosened(nodes, end)[o] == Loosened(nodes[..i], end)[o]
  {
    if i == |nodes| {
      assert nodes[..i] == nodes;
    } else {
      var n := |nodes| - 1;
      var front, last := nodes[..n], nodes[n];
      assert nodes == front + [last] && front[..i] == nodes[..i] && nodes[..i] + front[i..] == front;
      SortedAppend(front, [last], defined);
      OutputsAppend(nodes[..i], front[i..]);
      assert Runnable(last, defined + AllOutputs(front));
      LoosenedStable(front, defined, end, i, o);
      LoosenOutputs(Loosened(front, end), last, end, o);
    }
  }

  /** The node at a place of the list, with what is defined there. */
  lemma NodeAt(nodes: seq<Node>, defined: set<Name>, i: nat)
    requires Sorted(nodes, defined) && i < |nodes|
    ensures Runnable(nodes[i], defined + AllOutputs(nodes[..i]))
    ensures AllOutputs(nodes[..i + 1]) == AllOutputs(nodes[..i]) + Outputs(nodes[i])
  {
    var front, rest := nodes[..i], nodes[i..];
    assert nodes == front + rest && rest[0] == nodes[i] && nodes[..i + 1] == front + [nodes[i]];
    SortedAppend(front, rest, defined);
    OutputsAppend(front, [nodes[i]]);
  }

  /** What the finished loose names say of one node. */
  ghost predicate SettledAt(loose: Loose, n: Node, end: Env) {
    && (Quantizer(n, end) ==> n.outputs[1] in loose && loose[n.outputs[1]] == Reach(loose, end, n.inputs[0]))
    && (Broadcasting(n, end) ==> (n.outputs[0] in loose <==> Widest(loose, n, end) > Narrow(n, end)))
    && (Broadcasting(n, end) && n.outputs[0] in loose ==> loose[n.outputs[0]] == Widest(loose, n, end))
    && (forall o :: o in n.outputs && o in loose ==> (Quantizer(n, end) && o == n.outputs[1]) || Broadcasting(n, end))
  }

  lemma SameReach(a: Loose, b: Loose, end: Env, n: Name)
    requires n in end && (n in a <==> n in b) && (n in a ==> a[n] == b[n])
    ensures Reach(a, end, n) == Reach(b, end, n)
  {
  }

  /** Names that do not change between two sets of loose names. */
  ghost predicate SameOn(a: Loose, b: Loose, names: set<Name>) {
    forall n :: n in names ==> (n in a <==> n in b) && (n in a ==> a[n] == b[n])
  }

  lemma SettledWhenAdded(front: Loose, all: Loose, n: Node, end: Env, here: set<Name>)
    requires Runnable(n, here) && front.Keys <= here && Reads(n, end)
    requires SameOn(all, front, here) && SameOn(all, Loosen(front, n, end), here + Outputs(n))
    ensures SettledAt(all, n, end)
  {
    forall i | 0 <= i < |n.inputs| ensures Reach(all, end, n.inputs[i]) == Reach(front, end, n.inputs[i]) {
      SameReach(all, front, end, n.inputs[i]);
    }
    forall i | 0 <= i < |n.outputs| ensures n.outputs[i] !in front && n.outputs[i] in here + Outputs(n) {
      assert n.outputs[i] in Outputs(n);
    }
  }

  lemma NodeSettled(nodes: seq<Node>, defined: set<Name>, end: Env, i: nat)
    requires Sorted(nodes, defined) && i < |nodes| && Reads(nodes[i], end)
    ensures SettledAt(Loosened(nodes, end), nodes[i], end)
  {
    var front, all, here := Loosened(nodes[..i], end), Loosened(nodes, end), defined + AllOutputs(nodes[..i]);
    NodeAt(nodes, defined, i);
    LoosenedWritten(nodes[..i], end);
    forall o | o in here ensures (o in all <==> o in front) && (o in all ==> all[o] == front[o]) {
      LoosenedStable(nodes, defined, end, i, o);
    }
    assert nodes[..i + 1][..i] == nodes[..i] && nodes[..i + 1][i] == nodes[i];
    var next := Loosen(front, nodes[i], end);
    forall o | o in here + Outputs(nodes[i]) ensures (o in all <==> o in next) && (o in all ==> all[o] == next[o]) {
      LoosenedStable(nodes, defined, end, i + 1, o);
    }
    SettledWhenAdded(front, all, nodes[i], end, here);
  }

  /** The finished loose names, settled at every node of a run. */
  ghost predicate AllSettled(nodes: seq<Node>, loose: Loose, end: Env) {
    && (forall n :: n in nodes ==> SettledAt(loose, n, end)) && loose.Keys <= AllOutputs(nodes)
  }

  lemma RunSettled(sem: Semantics, nodes: seq<Node>, env: Env, end: Env)
    requires Run(sem, nodes, env) == Some(end)
    ensures AllSettled(nodes, Loosened(nodes, end), end)
  {
    RunsIffSorted(sem, nodes, env);
    LoosenedWritten(nodes, end);
    forall n | n in nodes ensures SettledAt(Loosened(nodes, end), n, end) {
      var i :| 0 <= i < |nodes| && nodes[i] == n;
      RunComputes(sem, nodes, env, n);
      NodeSettled(nodes, env.Keys, end, i);
    }
  }

  // ---- every node tolerates them -------------------------------------------------------------------

  lemma ScaleScalar(m: Meaning, n: Node, end: Env)
    requires Computes(Onnx(m), n, end) && Quantizer(n, end) && SomeNonzero(end[n.inputs[0]].data)
    ensures n.outputs[1] in end && end[n.outputs[1]] == Tensor([], [Scale(end[n.inputs[0]].data)])
  {
    assert Args(n, end) == [end[n.inputs[0]]];
    assert end[n.outputs[1]] == Onnx(m)(n.op, Args(n, end), 1);
  }

  lemma ResultRank(m: Meaning, n: Node, end: Env)
    requires Computes(Onnx(m), n, end) && Broadcasting(n, end)
    ensures n.outputs[0] in end && |end[n.outputs[0]].dims| == Narrow(n, end)
  {
    assert Args(n, end) == [end[n.inputs[0]], end[n.inputs[1]]];
    ArithmeticApplied(m, n.op, end[n.inputs[0]], end[n.inputs[1]]);
  }

  /** A graph and its run, with the loose names of the run; only broadcasting operators read them. */
  ghost predicate Loosening(m: Meaning, nodes: seq<Node>, loose: Loose, end: Env) {
    && AllSettled(nodes, loose, end) && AllNonzero(nodes, end)
    && (forall n :: n in nodes ==> Computes(Onnx(m), n, end))
    && (forall n :: n in nodes && ReadsLoose(n, loose) ==> Broadcasting(n, end))
  }

  lemma LooseningOf(m: Meaning, nodes: seq<Node>, env: Env, end: Env)
    requires Run(Onnx(m), nodes, env) == Some(end) && AllNonzero(nodes, end) && AllCombined(nodes, end)
    ensures Loosening(m, nodes, Loosened(nodes, end), end)
  {
    RunSettled(Onnx(m), nodes, env, end);
    forall n | n in nodes ensures Computes(Onnx(m), n, end) {
      RunComputes(Onnx(m), nodes, env, n);
    }
  }

  lemma QuantizedExact(m: Meaning, nodes: seq<Node>, loose: Loose, end: Env, n: Node)
    requires Loosening(m, nodes, loose, end) && n in nodes && Quantizer(n, end)
    ensures n.inputs[0] !in loose && |end[n.inputs[0]].dims| >= 1 && SomeNonzero(end[n.inputs[0]].data)
  {
    if n.inputs[0] in loose {
      assert ReadsLoose(n, loose);
    }
  }

  lemma ScaleWider(m: Meaning, n: Node, loose: Loose, end: Env)
    requires Computes(Onnx(m), n, end) && Quantizer(n, end) && SettledAt(loose, n, end) && n.inputs[0] !in loose
    requires |end[n.inputs[0]].dims| >= 1 && SomeNonzero(end[n.inputs[0]].data)
    ensures n.outputs[1] in end && n.outputs[1] in loose && |end[n.outputs[1]].dims| < loose[n.outputs[1]]
  {
    ScaleScalar(m, n, end);
  }

  lemma ResultWider(m: Meaning, n: Node, loose: Loose, end: Env)
    requires Computes(Onnx(m), n, end) && Broadcasting(n, end) && SettledAt(loose, n, end) && n.outputs[0] in loose
    ensures n.outputs[0] in end && |end[n.outputs[0]].dims| < loose[n.outputs[0]]
  {
    ResultRank(m, n, end);
  }

  /** A loose name is a scale or the result of a broadcasting operator. */
  lemma LooseWriter(nodes: seq<Node>, loose: Loose, end: Env, o: Name) returns (n: Node)
    requires AllSettled(nodes, loose, end) && o in loose
    ensures n in nodes && SettledAt(loose, n, end)
    ensures (Quantizer(n, end) && o == n.outputs[1]) || (Broadcasting(n, end) && o == n.outputs[0])
  {
    n := WriterOf(nodes, o);
  }

  /** A loose name has fewer axes in the original run than it reaches. */
  lemma LooseIsWider(m: Meaning, nodes: seq<Node>, loose: Loose, end: Env, o: Name)
    requires Loosening(m, nodes, loose, end) && o in loose
    ensures o in end && |end[o].dims| < loose[o]
  {
    var n := LooseWriter(nodes, loose, end, o);
    if Quantizer(n, end) {
      QuantizedExact(m, nodes, loose, end, n);
      ScaleWider(m, n, loose, end);
    } else {
      ResultWider(m, n, loose, end);
    }
  }

  lemma LooseFollow(m: Meaning, nodes: seq<Node>, loose: Loose, end: Env)
    requires Loosening(m, nodes, loose, end)
    ensures Follows(loose, end, end)
  {
    forall o | o in end ensures AgreeAt(loose, o, end[o], end[o]) {
      PaddedItself(end[o]);
      if o in loose {
        LooseIsWider(m, nodes, loose, end, o);
      }
    }
  }

  lemma LooseLive(m: Meaning, nodes: seq<Node>, loose: Loose, end: Env)
    requires Loosening(m, nodes, loose, end)
    ensures AllLive(nodes, loose, end)
  {
    forall n | n in nodes ensures Live(n, loose, end) {
      if n.op.DynamicQuantizeLinear? && |n.inputs| == 1 && |n.outputs| == 3 {
        assert Computes(Onnx(m), n, end);
        QuantizedExact(m, nodes, loose, end, n);
      }
    }
  }

  /** Padding that does not widen the result does not change it. */
  lemma NotWidened(op: Op, a: Tensor, b: Tensor, c: Tensor, d: Tensor)
    requires Arithmetic(op) && Combines(op, a, b) && Padded(a, c) && Padded(b, d)
    requires |c.dims| <= Rank(a, b) && |d.dims| <= Rank(a, b)
    ensures Combines(op, c, d) && Combined(op, c, d) == Combined(op, a, b)
  {
    Spread(op, a, b, c, d);
    assert PadTo(Combined(op, a, b).dims, Rank(a, b)) == Combined(op, a, b).dims;
  }

  lemma NarrowArgs(m: Meaning, node: Node, loose: Loose, was: Env, args: seq<Tensor>)
    requires Broadcasting(node, was) && Widest(loose, node, was) <= Narrow(node, was) && Fits(loose, node, was, args)
    ensures Onnx(m)(node.op, args, 0) == Onnx(m)(node.op, Args(node, was), 0)
  {
    var a, b := was[node.inputs[0]], was[node.inputs[1]];
    TwoArgs(node, loose, was, args);
    NotWidened(node.op, a, b, args[0], args[1]);
    ArithmeticApplied(m, node.op, a, b);
    ArithmeticApplied(m, node.op, args[0], args[1]);
  }

  lemma NarrowTolerates(m: Meaning, node: Node, loose: Loose, was: Env)
    requires Broadcasting(node, was) && Widest(loose, node, was) <= Narrow(node, was)
    requires Computes(Onnx(m), node, was) && Follows(loose, was, was)
    ensures Tolerates(Onnx(m), node, loose, was)
  {
    forall args | Fits(loose, node, was, args)
      ensures Onnx(m)(node.op, args, 0) == Onnx(m)(node.op, Args(node, was), 0)
    {
      NarrowArgs(m, node, loose, was, args);
    }
    SameResultTolerated(Onnx(m), node, loose, was);
  }

  lemma LooseTolerate(m: Meaning, nodes: seq<Node>, loose: Loose, end: Env, n: Node)
    requires Loosening(m, nodes, loose, end) && Follows(loose, end, end) && n in nodes
    ensures Tolerates(Onnx(m), n, loose, end)
  {
    if !ReadsLoose(n, loose) {
      ExactInputs(Onnx(m), n, loose, end);
    } else if n.outputs[0] in loose {
      SpreadsTolerates(m, n, loose, end);
    } else {
      NarrowTolerates(m, n, loose, end);
    }
  }

  // ---- the ranks are reached -----------------------------------------------------------------------

  /** The finished pass, with a run that keeps the values up to the loose names. */
  ghost predicate Finished(m: Meaning, nodes: seq<Node>, inits: seq<Initializer>, env: Env, end: Env, loose: Loose,
                           result: Rewrite, after: Env)
  {
    && Started(m, nodes, inits, env, end) && Loosening(m, nodes, loose, end)
    && RewriteAll(nodes, inits, Quantizers(nodes), 0) == Outcome(result, None)
    && Run(Onnx(m), result.nodes, env + Table(result.inits)) == Some(after)
    && Keeps(loose, GoneAll(nodes, Quantizers(nodes)), end, after)
  }

  lemma KeptInput(m: Meaning, nodes: seq<Node>, inits: seq<Initializer>, env: Env, end: Env, loose: Loose,
                  result: Rewrite, after: Env, n: Node, o: Name)
    requires Finished(m, nodes, inits, env, end, loose, result, after)
    requires n in nodes && !n.op.MatMulInteger? && !n.op.Cast? && o in n.inputs
    ensures o in end && o in after && o !in GoneAll(nodes, Quantizers(nodes)) && AgreeAt(loose, o, end[o], after[o])
  {
    assert [] + nodes == nodes && Computes(Onnx(m), n, end);
    ReadsNothingGone(nodes, Table(inits), n, o);
  }

  lemma ScaleReached(m: Meaning, nodes: seq<Node>, inits: seq<Initializer>, env: Env, end: Env, loose: Loose,
                     result: Rewrite, after: Env, n: Node)
    requires Finished(m, nodes, inits, env, end, loose, result, after) && n in nodes && Quantizer(n, end)
    ensures n.outputs[1] in after && n.outputs[1] in loose && |after[n.outputs[1]].dims| == loose[n.outputs[1]]
  {
    KeptInput(m, nodes, inits, env, end, loose, result, after, n, n.inputs[0]);
    QuantizedExact(m, nodes, loose, end, n);
    ScaleAfter(m, nodes, inits, env, result, after, n);
  }

  lemma PaddedRank(m: Meaning, n: Node, end: Env, after: Env)
    requires Broadcasting(n, end) && Computes(Onnx(m), n, after)
    requires Padded(end[n.inputs[0]], after[n.inputs[0]]) && Padded(end[n.inputs[1]], after[n.inputs[1]])
    ensures |after[n.outputs[0]].dims| == Rank(after[n.inputs[0]], after[n.inputs[1]])
  {
    var a, b := n.inputs[0], n.inputs[1];
    Spread(n.op, end[a], end[b], after[a], after[b]);
    assert Args(n, after) == [after[a], after[b]];
    ArithmeticApplied(m, n.op, after[a], after[b]);
  }

  /** A lasting node computes in the finished run. */
  lemma StillComputes(m: Meaning, nodes: seq<Node>, inits: seq<Initializer>, env: Env, result: Rewrite, after: Env,
                      n: Node)
    requires Pending([], nodes, Table(inits), env.Keys, 0) && n in nodes && Lasting(n)
    requires RewriteAll(nodes, inits, Quantizers(nodes), 0) == Outcome(result, None)
    requires Run(Onnx(m), result.nodes, env + Table(result.inits)) == Some(after)
    ensures Computes(Onnx(m), n, after)
  {
    assert [] + nodes == nodes;
    PassLeaves([], nodes, inits, env.Keys, 0, result, n);
    RunComputes(Onnx(m), result.nodes, env + Table(result.inits), n);
  }

  lemma ResultAfter(m: Meaning, nodes: seq<Node>, inits: seq<Initializer>, env: Env, end: Env, loose: Loose,
                    result: Rewrite, after: Env, n: Node)
    requires Finished(m, nodes, inits, env, end, loose, result, after) && n in nodes && Broadcasting(n, end)
    requires n.inputs[0] in after && AgreeAt(loose, n.inputs[0], end[n.inputs[0]], after[n.inputs[0]])
    requires n.inputs[1] in after && AgreeAt(loose, n.inputs[1], end[n.inputs[1]], after[n.inputs[1]])
    ensures n.outputs[0] in after && |after[n.outputs[0]].dims| == Rank(after[n.inputs[0]], after[n.inputs[1]])
  {
    PaddedItself(end[n.inputs[0]]);
    PaddedItself(end[n.inputs[1]]);
    StillComputes(m, nodes, inits, env, result, after, n);
    PaddedRank(m, n, end, after);
  }

  /** In the finished run the name has the rank that it may reach. */
  ghost predicate AtRank(loose: Loose, end: Env, after: Env, o: Name) {
    o in end && o in after && |after[o].dims| == Reach(loose, end, o)
  }

  /** How ranks are reached: by scales, from operands to results, and by names that are not loose. */
  ghost predicate RanksSpread(nodes: seq<Node>, loose: Loose, end: Env, after: Env) {
    && (forall n :: n in nodes && Quantizer(n, end) ==> AtRank(loose, end, after, n.outputs[1]))
    && (forall n :: n in nodes && Broadcasting(n, end) ==> OperandsSpread(n, loose, end, after))
  }

  ghost predicate OperandsSpread(n: Node, loose: Loose, end: Env, after: Env)
    requires Broadcasting(n, end)
  {
    && (n.inputs[0] !in loose ==> AtRank(loose, end, after, n.inputs[0]))
    && (n.inputs[1] !in loose ==> AtRank(loose, end, after, n.inputs[1]))
    && (AtRank(loose, end, after, n.inputs[0]) && AtRank(loose, end, after, n.inputs[1]) && n.outputs[0] in loose ==>
          AtRank(loose, end, after, n.outputs[0]))
  }

  lemma SpreadOver(n: Node, loose: Loose, end: Env, after: Env)
    requires Broadcasting(n, end) && SettledAt(loose, n, end) && n.outputs[0] in end && n.outputs[0] in after
    requires n.inputs[0] in after && AgreeAt(loose, n.inputs[0], end[n.inputs[0]], after[n.inputs[0]])
    requires n.inputs[1] in after && AgreeAt(loose, n.inputs[1], end[n.inputs[1]], after[n.inputs[1]])
    requires |after[n.outputs[0]].dims| == Rank(after[n.inputs[0]], after[n.inputs[1]])
    ensures OperandsSpread(n, loose, end, after)
  {
  }

  lemma SpreadFrom(m: Meaning, nodes: seq<Node>, inits: seq<Initializer>, env: Env, end: Env, loose: Loose,
                   result: Rewrite, after: Env, n: Node)
    requires Finished(m, nodes, inits, env, end, loose, result, after) && n in nodes && Broadcasting(n, end)
    ensures OperandsSpread(n, loose, end, after)
  {
    KeptInput(m, nodes, inits, env, end, loose, result, after, n, n.inputs[0]);
    KeptInput(m, nodes, inits, env, end, loose, result, after, n, n.inputs[1]);
    ResultAfter(m, nodes, inits, env, end, loose, result, after, n);
    assert Computes(Onnx(m), n, end) && SettledAt(loose, n, end);
    SpreadOver(n, loose, end, after);
  }

  lemma FinishedSpreads(m: Meaning, nodes: seq<Node>, inits: seq<Initializer>, env: Env, end: Env, loose: Loose,
                        result: Rewrite, after: Env)
    requires Finished(m, nodes, inits, env, end, loose, result, after)
    ensures RanksSpread(nodes, loose, end, after)
  {
    forall n | n in nodes && Quantizer(n, end) ensures AtRank(loose, end, after, n.outputs[1]) {
      assert Computes(Onnx(m), n, end);
      ScaleReached(m, nodes, inits, env, end, loose, result, after, n);
    }
    forall n | n in nodes && Broadcasting(n, end) ensures OperandsSpread(n, loose, end, after) {
      SpreadFrom(m, nodes, inits, env, end, loose, result, after, n);
    }
  }

  lemma WriterBefore(nodes: seq<Node>, j: nat, o: Name) returns (i: nat)
    requires j <= |nodes| && o in AllOutputs(nodes[..j])
    ensures i < j && o in nodes[i].outputs
  {
    var n := WriterOf(nodes[..j], o);
    i :| 0 <= i < j && nodes[..j][i] == n;
  }

  lemma OperandBefore(nodes: seq<Node>, defined: set<Name>, loose: Loose, j: nat, o: Name) returns (i: nat)
    requires Sorted(nodes, defined) && j < |nodes| && o in nodes[j].inputs && o in loose && loose.Keys !! defined
    ensures i < j && o in nodes[i].outputs
  {
    NodeAt(nodes, defined, j);
    i := WriterBefore(nodes, j, o);
  }

  /** Every loose name is at its rank, in the order of the list. */
  lemma {:induction false} OutputAtRank(nodes: seq<Node>, defined: set<Name>, loose: Loose, end: Env, after: Env,
                                        j: nat, o: Name)
    requires Sorted(nodes, defined) && AllSettled(nodes, loose, end) && RanksSpread(nodes, loose, end, after)
    requires loose.Keys !! defined && j < |nodes| && o in nodes[j].outputs && o in loose
    ensures AtRank(loose, end, after, o)
    decreases j
  {
    var n := nodes[j];
    assert SettledAt(loose, n, end);
    if !(Quantizer(n, end) && o == n.outputs[1]) {
      assert OperandsSpread(n, loose, end, after);
      if n.inputs[0] in loose {
        var i := OperandBefore(nodes, defined, loose, j, n.inputs[0]);
        OutputAtRank(nodes, defined, loose, end, after, i, n.inputs[0]);
      }
      if n.inputs[1] in loose {
        var i := OperandBefore(nodes, defined, loose, j, n.inputs[1]);
        OutputAtRank(nodes, defined, loose, end, after, i, n.inputs[1]);
      }
    }
  }

  lemma LooseAtRank(nodes: seq<Node>, defined: set<Name>, loose: Loose, end: Env, after: Env, o: Name)
    requires Sorted(nodes, defined) && AllSettled(nodes, loose, end)
    requires RanksSpread(nodes, loose, end, after) && o in loose
    ensures AtRank(loose, end, after, o)
  {
    OutputsNotDefined(nodes, defined);
    assert nodes[..|nodes|] == nodes;
    var j := WriterBefore(nodes, |nodes|, o);
    OutputAtRank(nodes, defined, loose, end, after, j, o);
  }

  /** Every name that is left has reached its rank. */
  lemma RankReached(m: Meaning, nodes: seq<Node>, inits: seq<Initializer>, env: Env, end: Env, loose: Loose,
                    result: Rewrite, after: Env, o: Name)
    requires Finished(m, nodes, inits, env, end, loose, result, after)
    requires o in end && o !in GoneAll(nodes, Quantizers(nodes))
    ensures AtRank(loose, end, after, o)
  {
    assert o in after && AgreeAt(loose, o, end[o], after[o]);
    if o in loose {
      RunsIffSorted(Onnx(m), nodes, env);
      FinishedSpreads(m, nodes, inits, env, end, loose, result, after);
      LooseAtRank(nodes, env.Keys, loose, end, after, o);
    }
  }

  // ---- the pass, exactly ---------------------------------------------------------------------------

  /** Every name that is left has its value, with as many leading axes of length one as its rank takes. */
  ghost predicate Widened(loose: Loose, gone: set<Name>, was: Env, now: Env) {
    forall n :: n in was && n !in gone ==>
      n in now && now[n] == Tensor(PadTo(was[n].dims, Reach(loose, was, n)), was[n].data)
  }

  lemma WidenedAt(m: Meaning, nodes: seq<Node>, inits: seq<Initializer>, env: Env, end: Env, loose: Loose,
                  result: Rewrite, after: Env, o: Name)
    requires Finished(m, nodes, inits, env, end, loose, result, after)
    requires o in end && o !in GoneAll(nodes, Quantizers(nodes))
    ensures o in after && after[o] == Tensor(PadTo(end[o].dims, Reach(loose, end, o)), end[o].data)
    ensures after[o] == end[o] <==> o !in loose
  {
    assert AgreeAt(loose, o, end[o], after[o]);
    RankReached(m, nodes, inits, env, end, loose, result, after, o);
    PaddedItself(end[o]);
    if o in loose {
      LooseIsWider(m, nodes, loose, end, o);
    }
  }

  /**
   * Where only broadcasting operators read loose names, the pass gives every name that is left its value with the
   * axes of its loose rank, so it keeps the value exactly when the name is not loose.
   */
  lemma LoosenedPassExactly(m: Meaning, nodes: seq<Node>, inits: seq<Initializer>, env: Env, end: Env)
    returns (result: Rewrite, after: Env)
    requires Started(m, nodes, inits, env, end) && AllNonzero(nodes, end) && AllCombined(nodes, end)
    ensures RewriteAll(nodes, inits, Quantizers(nodes), 0) == Outcome(result, None)
    ensures Run(Onnx(m), result.nodes, env + Table(result.inits)) == Some(after)
    ensures Widened(Loosened(nodes, end), GoneAll(nodes, Quantizers(nodes)), end, after)
    ensures forall n :: n in end && n !in GoneAll(nodes, Quantizers(nodes)) ==>
              (n in after && after[n] == end[n] <==> n !in Loosened(nodes, end))
    ensures Extends(Table(inits), Table(result.inits))
  {
    var loose, gone := Loosened(nodes, end), GoneAll(nodes, Quantizers(nodes));
    LooseningOf(m, nodes, env, end);
    LooseFollow(m, nodes, loose, end);
    LooseLive(m, nodes, loose, end);
    forall n | n in nodes ensures Tolerates(Onnx(m), n, loose, end) {
      LooseTolerate(m, nodes, loose, end, n);
    }
    result, after := PassKeepsValues(m, nodes, inits, env, end, loose);
    forall n | n in end && n !in gone
      ensures n in after && after[n] == Tensor(PadTo(end[n].dims, Reach(loose, end, n)), end[n].data)
      ensures after[n] == end[n] <==> n !in loose
    {
      WidenedAt(m, nodes, inits, env, end, loose, result, after, n);
    }
  }
}
