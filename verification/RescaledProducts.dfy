/** Graphs that multiply each dynamic product by its scale: the rescaling takes the extra axes of the scale back in. */
module RescaledProducts {
  import opened Common
  import opened Quantization
  import opened OnnxGraph
  import opened OnnxOrder
  import opened OnnxRun
  import opened Tensors
  import opened MatmulSite
  import opened DynamicMatmuls
  import opened MatmulNext
  import opened MatmulValues
  import opened MatmulPass
  import opened MatmulPlaces
  import opened LooseRanks

  // ---- the scale changes its rank ------------------------------------------------------------------

  /** The divisor 255 has one axis, so the new scale is never a scalar. */
  lemma ScaleNeverScalar(range: Tensor)
    requires Combines(Div, range, Unit(1, 255.0))
    ensures |Combined(Div, range, Unit(1, 255.0)).dims| == if |range.dims| == 0 then 1 else |range.dims|
  {
  }

  /** The new scale has the axes of the input, where the original one has none; its one element is the same. */
  lemma ScaleGainsAxes(m: Meaning, site: Site, k: nat, e: Env) returns (f: Env)
    requires site.Shaped() && AtSite(site, e) && Unused(site, k, e)
    ensures Run(Onnx(m), site.Replacement(k), e + Constants(k, site.weights, site.zero)) == Some(f)
    ensures Runnable(site.dql, e.Keys) && site.ScaleName() in f && site.ScaleName() in After(Onnx(m), site.dql, e)
    ensures var was, now := After(Onnx(m), site.dql, e)[site.ScaleName()], f[site.ScaleName()];
            now != was && Padded(was, now) && |was.dims| == 0 && |now.dims| == |e[site.X()].dims|
  {
    f := ReplacementRun(m, site, k, e);
    QuantizedOutputs(m, site.dql, e);
    ScalePadded(|e[site.X()].dims|, Scale(e[site.X()].data));
  }

  /** Rescaling by the new scale gives the old result exactly when the product has as many axes as the input. */
  lemma RescalingExactly(op: Op, product: Tensor, rank: nat, scale: real)
    requires (op.Mul? || op.Add? || op.Sub? || (op.Div? && scale != 0.0)) && rank >= 1
    ensures Combines(op, product, Tensor([], [scale])) && Combines(op, product, Unit(rank, scale))
    ensures Combined(op, product, Unit(rank, scale)) == Combined(op, product, Tensor([], [scale]))
            <==> rank <= |product.dims|
  {
    ScalePadded(rank, scale);
    ScalarCombines(op, product, scale);
    AbsorbedExactly(op, product, Tensor([], [scale]), Unit(rank, scale));
  }

  lemma ScalarCombines(op: Op, t: Tensor, s: real)
    requires Arithmetic(op) && (op.Div? ==> s != 0.0)
    ensures Combines(op, t, Tensor([], [s]))
  {
    assert PadTo([], |t.dims|) == Ones(|t.dims|);
  }

  // ---- every scale is absorbed ---------------------------------------------------------------------

  /** Each scale of the graph, with the rank of the tensor that is quantised. */
  function Scales(nodes: seq<Node>, end: Env): (r: Loose) {
    if nodes == [] then map[]
    else
      var rest := Scales(nodes[1..], end);
      if Quantizer(nodes[0], end) then rest[nodes[0].outputs[1] := |end[nodes[0].inputs[0]].dims|] else rest
  }

  lemma {:induction false} ScaleWriter(nodes: seq<Node>, end: Env, n: Name) returns (d: Node)
    requires n in Scales(nodes, end)
    ensures d in nodes && Quantizer(d, end) && d.outputs[1] == n && Scales(nodes, end)[n] == |end[d.inputs[0]].dims|
  {
    if Quantizer(nodes[0], end) && nodes[0].outputs[1] == n {
      d := nodes[0];
    } else {
      d := ScaleWriter(nodes[1..], end, n);
    }
  }

  lemma {:induction false} ScaleListed(nodes: seq<Node>, end: Env, d: Node)
    requires d in nodes && Quantizer(d, end)
    ensures d.outputs[1] in Scales(nodes, end)
  {
    if nodes[0] != d {
      ScaleListed(nodes[1..], end, d);
    }
  }

  lemma ScaleRank(nodes: seq<Node>, defined: set<Name>, end: Env, d: Node)
    requires Sorted(nodes, defined) && d in nodes && Quantizer(d, end)
    ensures d.outputs[1] in Scales(nodes, end) && Scales(nodes, end)[d.outputs[1]] == |end[d.inputs[0]].dims|
  {
    ScaleListed(nodes, end, d);
    var w := ScaleWriter(nodes, end, d.outputs[1]);
    OneWriter(nodes, defined, d, w, d.outputs[1]);
  }

  /** What reads a scale combines it with a tensor that has at least the axes of the quantised one. */
  ghost predicate AllRescaled(nodes: seq<Node>, end: Env) {
    forall n :: n in nodes && ReadsLoose(n, Scales(nodes, end)) ==> Absorbs(n, Scales(nodes, end), end)
  }

  lemma ScalesFollow(m: Meaning, nodes: seq<Node>, env: Env, end: Env)
    requires Run(Onnx(m), nodes, env) == Some(end) && AllNonzero(nodes, end)
    ensures Follows(Scales(nodes, end), end, end)
  {
    var loose := Scales(nodes, end);
    forall n | n in end ensures AgreeAt(loose, n, end[n], end[n]) {
      if n in loose {
        var d := ScaleWriter(nodes, end, n);
        RunComputes(Onnx(m), nodes, env, d);
        assert Args(d, end) == [end[d.inputs[0]]];
        assert end[d.outputs[1]] == Tensor([], [Scale(end[d.inputs[0]].data)]);
        PaddedItself(end[n]);
      }
    }
  }

  lemma ScalesLive(m: Meaning, nodes: seq<Node>, env: Env, end: Env)
    requires Run(Onnx(m), nodes, env) == Some(end) && Sorted(nodes, env.Keys)
    requires AllNonzero(nodes, end) && AllRescaled(nodes, end)
    ensures AllLive(nodes, Scales(nodes, end), end)
  {
    var loose := Scales(nodes, end);
    forall n | n in nodes && n.op.DynamicQuantizeLinear? && |n.inputs| == 1 && |n.outputs| == 3
      ensures Live(n, loose, end)
    {
      RunComputes(Onnx(m), nodes, env, n);
      assert n.inputs[0] in end;
      ScaleRank(nodes, env.Keys, end, n);
      assert n.inputs[0] !in loose by {
        assert n.inputs[0] in loose ==> ReadsLoose(n, loose);
      }
    }
  }

  /** Every name outside the set still has a value, and exactly the one it had. */
  ghost predicate KeepsExactly(except: set<Name>, was: Env, now: Env) {
    forall n :: n in was && n !in except ==> n in now && now[n] == was[n]
  }

  lemma KeepsBoth(loose: Loose, gone: set<Name>, was: Env, now: Env)
    requires Keeps(loose, gone, was, now)
    ensures KeepsExactly(gone + loose.Keys, was, now)
    ensures forall n :: n in loose && n in was && n !in gone ==> n in now && now[n].data == was[n].data
  {
    forall n | n in was && n !in gone ensures n in now && AgreeAt(loose, n, was[n], now[n]) {
    }
  }

  /** Where every scale is absorbed, the pass keeps every name that is left, other than a scale, exactly. */
  lemma RescaledKeeps(m: Meaning, nodes: seq<Node>, inits: seq<Initializer>, env: Env, end: Env)
    returns (result: Rewrite, after: Env)
    requires Started(m, nodes, inits, env, end) && AllNonzero(nodes, end) && AllRescaled(nodes, end)
    ensures RewriteAll(nodes, inits, Quantizers(nodes), 0) == Outcome(result, None)
    ensures Run(Onnx(m), result.nodes, env + Table(result.inits)) == Some(after)
    ensures KeepsExactly(GoneAll(nodes, Quantizers(nodes)) + Scales(nodes, end).Keys, end, after)
    ensures forall n :: n in Scales(nodes, end) && n in end && n !in GoneAll(nodes, Quantizers(nodes)) ==>
              n in after && after[n].data == end[n].data
  {
    var loose := Scales(nodes, end);
    assert [] + nodes == nodes;
    ScalesFollow(m, nodes, env, end);
    ScalesLive(m, nodes, env, end);
    forall n | n in nodes ensures Tolerates(Onnx(m), n, loose, end) {
      RunComputes(Onnx(m), nodes, env, n);
      SettlesTolerates(m, n, loose, end);
    }
    result, after := PassKeepsValues(m, nodes, inits, env, end, loose);
    KeepsBoth(loose, GoneAll(nodes, Quantizers(nodes)), end, after);
  }

  // ---- and only there ------------------------------------------------------------------------------

  /** What reads a scale is a broadcasting operator. */
  ghost predicate ScalesCombined(nodes: seq<Node>, end: Env) {
    forall n :: n in nodes && ReadsLoose(n, Scales(nodes, end)) ==> Broadcasting(n, end)
  }

  /** A finished pass that kept every name that is left, other than a scale. */
  ghost predicate AllKept(m: Meaning, nodes: seq<Node>, inits: seq<Initializer>, env: Env, end: Env, result: Rewrite,
                          after: Env)
  {
    && Started(m, nodes, inits, env, end) && AllNonzero(nodes, end) && ScalesCombined(nodes, end)
    && RewriteAll(nodes, inits, Quantizers(nodes), 0) == Outcome(result, None)
    && Run(Onnx(m), result.nodes, env + Table(result.inits)) == Some(after)
    && KeepsExactly(GoneAll(nodes, Quantizers(nodes)) + Scales(nodes, end).Keys, end, after)
  }

  lemma ExactInput(m: Meaning, nodes: seq<Node>, inits: seq<Initializer>, env: Env, end: Env, result: Rewrite,
                   after: Env,
                   n: Node, o: Name)
    requires AllKept(m, nodes, inits, env, end, result, after) && n in nodes && !n.op.MatMulInteger? && !n.op.Cast?
    requires o in n.inputs && o !in Scales(nodes, end)
    ensures o in end && o in after && after[o] == end[o]
  {
    assert [] + nodes == nodes;
    RunComputes(Onnx(m), nodes, env, n);
    ReadsNothingGone(nodes, Table(inits), n, o);
  }

  lemma ScaleInput(m: Meaning, nodes: seq<Node>, inits: seq<Initializer>, env: Env, end: Env, result: Rewrite,
                   after: Env,
                   o: Name)
    requires AllKept(m, nodes, inits, env, end, result, after) && o in Scales(nodes, end)
    ensures o in end && o in after && Padded(end[o], after[o]) && |end[o].dims| == 0
    ensures |after[o].dims| == Scales(nodes, end)[o] >= 1
  {
    var d := ScaleWriter(nodes, end, o);
    assert d.inputs[0] in Scales(nodes, end) ==> ReadsLoose(d, Scales(nodes, end));
    ExactInput(m, nodes, inits, env, end, result, after, d, d.inputs[0]);
    ScaleAfter(m, nodes, inits, env, result, after, d);
    RunComputes(Onnx(m), nodes, env, d);
    ScaleScalar(m, d, end);
    ScalePadded(|end[d.inputs[0]].dims|, Scale(end[d.inputs[0]].data));
  }

  /** An operand in the finished run: padded to what it may reach. */
  lemma OperandReached(m: Meaning, nodes: seq<Node>, inits: seq<Initializer>, env: Env, end: Env, result: Rewrite,
                       after: Env, n: Node, i: nat)
    requires AllKept(m, nodes, inits, env, end, result, after) && n in nodes && Broadcasting(n, end) && i < 2
    ensures n.inputs[i] in after && Padded(end[n.inputs[i]], after[n.inputs[i]])
    ensures |after[n.inputs[i]].dims| == Reach(Scales(nodes, end), end, n.inputs[i])
  {
    if n.inputs[i] in Scales(nodes, end) {
      ScaleInput(m, nodes, inits, env, end, result, after, n.inputs[i]);
    } else {
      ExactInput(m, nodes, inits, env, end, result, after, n, n.inputs[i]);
      PaddedItself(end[n.inputs[i]]);
    }
  }

  /** The result of an arithmetic node neither goes away nor is a scale. */
  lemma ResultLasts(nodes: seq<Node>, table: Env, defined: set<Name>, end: Env, n: Node, o: Name)
    requires Sorted(nodes, defined) && AllConvertible(nodes, nodes, table) && n in nodes && Lasting(n) && o in n.outputs
    ensures o !in GoneAll(nodes, Quantizers(nodes)) && o !in Scales(nodes, end)
  {
    if o in Scales(nodes, end) {
      var d := ScaleWriter(nodes, end, o);
      OneWriter(nodes, defined, n, d, o);
    }
    if o in GoneAll(nodes, Quantizers(nodes)) {
      var d := GoneFrom(nodes, Quantizers(nodes), o);
      QuantizersAre(nodes, d);
      GoneAtSite(nodes, table, d);
      SiteFacts(nodes, table, d);
      var site := SiteOf(nodes, table, d).value;
      OneWriter(nodes, defined, n, if o == site.product.outputs[0] then site.product else d, o);
    }
  }

  lemma KeptMeansRescaled(m: Meaning, nodes: seq<Node>, inits: seq<Initializer>, env: Env, end: Env, result: Rewrite,
                          after: Env, n: Node)
    requires AllKept(m, nodes, inits, env, end, result, after) && n in nodes && ReadsLoose(n, Scales(nodes, end))
    ensures Absorbs(n, Scales(nodes, end), end)
  {
    var loose, a, b := Scales(nodes, end), n.inputs[0], n.inputs[1];
    assert [] + nodes == nodes;
    OperandReached(m, nodes, inits, env, end, result, after, n, 0);
    OperandReached(m, nodes, inits, env, end, result, after, n, 1);
    StillComputes(m, nodes, inits, env, result, after, n);
    PaddedRank(m, n, end, after);
    RunComputes(Onnx(m), nodes, env, n);
    ResultRank(m, n, end);
    ResultLasts(nodes, Table(inits), env.Keys, end, n, n.outputs[0]);
    assert after[n.outputs[0]] == end[n.outputs[0]];
    if a in loose {
      ScaleInput(m, nodes, inits, env, end, result, after, a);
    }
    if b in loose {
      ScaleInput(m, nodes, inits, env, end, result, after, b);
    }
  }

  lemma PassRuns(m: Meaning, nodes: seq<Node>, inits: seq<Initializer>, env: Env, end: Env)
    returns (result: Rewrite, after: Env)
    requires Started(m, nodes, inits, env, end)
    ensures RewriteAll(nodes, inits, Quantizers(nodes), 0) == Outcome(result, None)
    ensures Run(Onnx(m), result.nodes, env + Table(result.inits)) == Some(after)
  {
    assert [] + nodes == nodes;
    result := PassKeepsOrder([], nodes, inits, env.Keys, 0);
    assert (env + Table(result.inits)).Keys == env.Keys + Table(result.inits).Keys;
    RunsIffSorted(Onnx(m), result.nodes, env + Table(result.inits));
    after := Run(Onnx(m), result.nodes, env + Table(result.inits)).value;
  }

  /**
   * Where scales are read by broadcasting operators, the pass keeps every name that is left, other than a scale,
   * exactly when each of them combines the scale with a tensor that has the axes of the quantised one.
   */
  lemma RescaledPassExactly(m: Meaning, nodes: seq<Node>, inits: seq<Initializer>, env: Env, end: Env)
    returns (result: Rewrite, after: Env)
    requires Started(m, nodes, inits, env, end) && AllNonzero(nodes, end) && ScalesCombined(nodes, end)
    ensures RewriteAll(nodes, inits, Quantizers(nodes), 0) == Outcome(result, None)
    ensures Run(Onnx(m), result.nodes, env + Table(result.inits)) == Some(after)
    ensures KeepsExactly(GoneAll(nodes, Quantizers(nodes)) + Scales(nodes, end).Keys, end, after)
            <==> AllRescaled(nodes, end)
  {
    result, after := PassRuns(m, nodes, inits, env, end);
    if AllRescaled(nodes, end) {
      var same, last := RescaledKeeps(m, nodes, inits, env, end);
    }
    if KeepsExactly(GoneAll(nodes, Quantizers(nodes)) + Scales(nodes, end).Keys, end, after) {
      forall n | n in nodes && ReadsLoose(n, Scales(nodes, end)) ensures Absorbs(n, Scales(nodes, end), end) {
        KeptMeansRescaled(m, nodes, inits, env, end, result, after, n);
      }
    }
  }
}
