/** Two runs side by side: the original one, and one in which some tensors carry more leading axes of length one. */
module MatmulValues {
  import opened OnnxGraph
  import opened OnnxOrder
  import opened OnnxRun
  import opened Tensors

  /** The names that may carry more axes, each with the rank that it may reach. */
  type Loose = map<Name, nat>

  predicate AgreeAt(loose: Loose, n: Name, was: Tensor, now: Tensor) {
    if n in loose then Padded(was, now) && |now.dims| <= loose[n] else was == now
  }

  /** Where both runs have a value they agree: exactly, or for loose names up to leading axes. */
  ghost predicate Follows(loose: Loose, was: Env, now: Env) {
    forall n :: n in was && n in now ==> AgreeAt(loose, n, was[n], now[n])
  }

  /** Arguments that the second run may hand to the node. */
  ghost predicate Fits(loose: Loose, node: Node, was: Env, args: seq<Tensor>)
    requires Reads(node, was)
  {
    |args| == |node.inputs| && forall i :: 0 <= i < |args| ==>
      AgreeAt(loose, node.inputs[i], was[node.inputs[i]], args[i])
  }

  ghost predicate ToleratesAt(sem: Semantics, node: Node, loose: Loose, was: Env, args: seq<Tensor>, j: nat)
    requires Reads(node, was) && j < |node.outputs|
  {
    Fits(loose, node, was, args) ==>
      AgreeAt(loose, node.outputs[j], sem(node.op, Args(node, was), j), sem(node.op, args, j))
  }

  /** On the values of the first run, more axes on loose inputs change no output but for axes on loose ones. */
  ghost predicate Tolerates(sem: Semantics, node: Node, loose: Loose, was: Env) {
    Reads(node, was) && forall args, j | 0 <= j < |node.outputs| :: ToleratesAt(sem, node, loose, was, args, j)
  }

  ghost predicate AllTolerate(sem: Semantics, nodes: seq<Node>, loose: Loose, was: Env) {
    forall n :: n in nodes ==> Computes(sem, n, was) && Tolerates(sem, n, loose, was)
  }

  lemma FollowsAfter(sem: Semantics, node: Node, loose: Loose, was: Env, f: Env)
    requires Runnable(node, f.Keys) && Follows(loose, was, f)
    requires Computes(sem, node, was) && Tolerates(sem, node, loose, was)
    ensures Follows(loose, was, After(sem, node, f))
  {
    var args, g := Args(node, f), After(sem, node, f);
    assert Fits(loose, node, was, args);
    forall n | n in was && n in g ensures AgreeAt(loose, n, was[n], g[n]) {
      if n !in f {
        var j := Index(node.outputs, n);
        AfterAt(sem, node, f, j);
        assert ToleratesAt(sem, node, loose, was, args, j);
      }
    }
  }

  /** A list of nodes that tolerate the axes keeps the second run at the values of the first. */
  lemma {:induction false} FollowsThrough(sem: Semantics, nodes: seq<Node>, loose: Loose, was: Env, f: Env)
    requires Run(sem, nodes, f).Some? && Follows(loose, was, f) && AllTolerate(sem, nodes, loose, was)
    ensures Follows(loose, was, Run(sem, nodes, f).value)
  {
    if nodes != [] {
      assert nodes[0] in nodes;
      FollowsAfter(sem, nodes[0], loose, was, f);
      FollowsThrough(sem, nodes[1..], loose, was, After(sem, nodes[0], f));
    }
  }

  // ---- which nodes tolerate what -------------------------------------------------------------------

  predicate ReadsLoose(node: Node, loose: Loose) {
    exists i :: 0 <= i < |node.inputs| && node.inputs[i] in loose
  }

  /** A node without loose inputs computes what it did. */
  lemma ExactInputs(sem: Semantics, node: Node, loose: Loose, was: Env)
    requires Computes(sem, node, was) && !ReadsLoose(node, loose) && Follows(loose, was, was)
    ensures Tolerates(sem, node, loose, was)
  {
    forall args, j | 0 <= j < |node.outputs| ensures ToleratesAt(sem, node, loose, was, args, j) {
      if Fits(loose, node, was, args) {
        assert args == Args(node, was);
        assert AgreeAt(loose, node.outputs[j], was[node.outputs[j]], was[node.outputs[j]]);
      }
    }
  }

  // ---- broadcasting operators ----------------------------------------------------------------------

  lemma ArithmeticApplied(m: Meaning, op: Op, a: Tensor, b: Tensor)
    requires Arithmetic(op) && Combines(op, a, b)
    ensures Onnx(m)(op, [a, b], 0) == Combined(op, a, b)
  {
  }

  /** A tensor padded to no more axes than the other operand has gives exactly the same result. */
  lemma Absorbed(op: Op, a: Tensor, b: Tensor, c: Tensor, d: Tensor)
    requires Arithmetic(op) && Combines(op, a, b)
    requires (c == a && Padded(b, d) && |d.dims| <= |a.dims|) || (d == b && Padded(a, c) && |c.dims| <= |b.dims|)
    ensures Combines(op, c, d) && Combined(op, c, d) == Combined(op, a, b)
  {
    if c == a && Padded(b, d) && |d.dims| <= |a.dims| {
      PaddingAbsorbed(Operation(op), a, b, d);
    } else {
      PaddingAbsorbedLeft(Operation(op), a, b, c);
    }
  }

  lemma Spread(op: Op, a: Tensor, b: Tensor, c: Tensor, d: Tensor)
    requires Arithmetic(op) && Combines(op, a, b) && Padded(a, c) && Padded(b, d)
    ensures Combines(op, c, d) && Padded(Combined(op, a, b), Combined(op, c, d))
    ensures |Combined(op, c, d).dims| == Rank(c, d)
  {
    PaddingSpreads(Operation(op), a, b, c, d);
  }

  /** The result keeps its value exactly when the other operand has as many axes as the padded one. */
  lemma AbsorbedExactly(op: Op, a: Tensor, b: Tensor, d: Tensor)
    requires Arithmetic(op) && Combines(op, a, b) && Padded(b, d) && |b.dims| < |d.dims|
    ensures Combines(op, a, d)
    ensures Combined(op, a, d) == Combined(op, a, b) <==> |d.dims| <= |a.dims|
  {
    PaddedItself(a);
    Spread(op, a, b, a, d);
    if |d.dims| <= |a.dims| {
      Absorbed(op, a, b, a, d);
    } else {
      assert |Combined(op, a, b).dims| == Rank(a, b);
    }
  }

  /** A binary operator whose operands broadcast in the first run. */
  ghost predicate Broadcasting(node: Node, was: Env) {
    && Arithmetic(node.op) && |node.inputs| == 2 && |node.outputs| == 1 && Reads(node, was)
    && Combines(node.op, was[node.inputs[0]], was[node.inputs[1]])
  }

  /** The rank that a name may reach. */
  function Reach(loose: Loose, was: Env, n: Name): (r: nat)
    requires n in was
  {
    if n in loose then loose[n] else |was[n].dims|
  }

  /** One operand is exact and has at least the axes that the other may reach. */
  ghost predicate Absorbs(node: Node, loose: Loose, was: Env) {
    && Broadcasting(node, was)
    && var a, b := node.inputs[0], node.inputs[1];
       || (a !in loose && Reach(loose, was, b) <= |was[a].dims|)
       || (b !in loose && Reach(loose, was, a) <= |was[b].dims|)
  }

  /** The result is loose and may reach what the operands may. */
  ghost predicate Spreads(node: Node, loose: Loose, was: Env) {
    && Broadcasting(node, was) && node.outputs[0] in loose
    && Reach(loose, was, node.inputs[0]) <= loose[node.outputs[0]]
    && Reach(loose, was, node.inputs[1]) <= loose[node.outputs[0]]
  }

  lemma TwoArgs(node: Node, loose: Loose, was: Env, args: seq<Tensor>)
    requires Reads(node, was) && |node.inputs| == 2 && Fits(loose, node, was, args)
    ensures args == [args[0], args[1]] && Args(node, was) == [was[node.inputs[0]], was[node.inputs[1]]]
    ensures forall i | 0 <= i < 2 ::
              Padded(was[node.inputs[i]], args[i]) && |args[i].dims| <= Reach(loose, was, node.inputs[i])
  {
    forall i | 0 <= i < 2
      ensures Padded(was[node.inputs[i]], args[i]) && |args[i].dims| <= Reach(loose, was, node.inputs[i])
    {
      PaddedItself(was[node.inputs[i]]);
    }
  }

  lemma AbsorbsArgs(m: Meaning, node: Node, loose: Loose, was: Env, args: seq<Tensor>)
    requires Absorbs(node, loose, was) && Fits(loose, node, was, args)
    ensures Onnx(m)(node.op, args, 0) == Onnx(m)(node.op, Args(node, was), 0)
  {
    var a, b := was[node.inputs[0]], was[node.inputs[1]];
    TwoArgs(node, loose, was, args);
    Absorbed(node.op, a, b, args[0], args[1]);
    ArithmeticApplied(m, node.op, a, b);
    ArithmeticApplied(m, node.op, args[0], args[1]);
  }

  lemma SameResultTolerated(sem: Semantics, node: Node, loose: Loose, was: Env)
    requires Computes(sem, node, was) && Follows(loose, was, was) && |node.outputs| == 1
    requires forall args :: Fits(loose, node, was, args) ==> sem(node.op, args, 0) == sem(node.op, Args(node, was), 0)
    ensures Tolerates(sem, node, loose, was)
  {
    assert AgreeAt(loose, node.outputs[0], was[node.outputs[0]], was[node.outputs[0]]);
  }

  lemma AbsorbsTolerates(m: Meaning, node: Node, loose: Loose, was: Env)
    requires Absorbs(node, loose, was) && Computes(Onnx(m), node, was) && Follows(loose, was, was)
    ensures Tolerates(Onnx(m), node, loose, was)
  {
    forall args | Fits(loose, node, was, args)
      ensures Onnx(m)(node.op, args, 0) == Onnx(m)(node.op, Args(node, was), 0)
    {
      AbsorbsArgs(m, node, loose, was, args);
    }
    SameResultTolerated(Onnx(m), node, loose, was);
  }

  lemma SpreadsTolerates(m: Meaning, node: Node, loose: Loose, was: Env)
    requires Spreads(node, loose, was)
    ensures Tolerates(Onnx(m), node, loose, was)
  {
    forall args, j | 0 <= j < |node.outputs| ensures ToleratesAt(Onnx(m), node, loose, was, args, j) {
      SpreadsAt(m, node, loose, was, args, j);
    }
  }

  lemma SpreadsAt(m: Meaning, node: Node, loose: Loose, was: Env, args: seq<Tensor>, j: nat)
    requires Spreads(node, loose, was) && j < |node.outputs|
    ensures ToleratesAt(Onnx(m), node, loose, was, args, j)
  {
    if Fits(loose, node, was, args) {
      var a, b := was[node.inputs[0]], was[node.inputs[1]];
      TwoArgs(node, loose, was, args);
      Spread(node.op, a, b, args[0], args[1]);
      ArithmeticApplied(m, node.op, a, b);
      ArithmeticApplied(m, node.op, args[0], args[1]);
    }
  }

  /** Loose names are read only by broadcasting operators, which absorb the axes or pass them on. */
  ghost predicate Settles(node: Node, loose: Loose, was: Env) {
    !ReadsLoose(node, loose) || Absorbs(node, loose, was) || Spreads(node, loose, was)
  }

  lemma SettlesTolerates(m: Meaning, node: Node, loose: Loose, was: Env)
    requires Settles(node, loose, was) && Computes(Onnx(m), node, was) && Follows(loose, was, was)
    ensures Tolerates(Onnx(m), node, loose, was)
  {
    if !ReadsLoose(node, loose) {
      ExactInputs(Onnx(m), node, loose, was);
    } else if Absorbs(node, loose, was) {
      AbsorbsTolerates(m, node, loose, was);
    } else {
      SpreadsTolerates(m, node, loose, was);
    }
  }
}
