/** Two graphs that combine a scale with another scale first: one rescales the product by the result, one does not. */
module ScaleExamples {
  import opened Common
  import opened Quantization
  import opened OnnxGraph
  import opened OnnxOrder
  import opened OnnxRun
  import opened Tensors
  import opened DynamicMatmuls
  import opened MatmulNames
  import opened MatmulNext
  import opened MatmulValues
  import opened MatmulPass
  import opened MatmulPlaces
  import opened LooseRanks
  import opened ProductExamples

  /** The scale of the layer times a scale of its weights. */
  function Scaled(a: Layer, w: Name, t: Name): (n: Node) {
    Node(Mul, "scales", [a.scale, w], [t])
  }

  /** The product times both scales. */
  function Rescaled(a: Layer, t: Name): (n: Node) {
    Node(Mul, "rescale", [a.out, t], [a.y])
  }

  function Product(a: Layer): (r: seq<Node>) {
    [a.Dql(), a.Mmi(), a.ToFloat()]
  }

  function ProductWrites(a: Layer): (s: set<Name>) {
    {a.q, a.scale, a.zeroPoint, a.product, a.out}
  }

  lemma ProductSorted(a: Layer, defined: set<Name>)
    requires a.Apart() && a.Written() !! defined && a.x in defined && a.w in defined && a.z in defined
    ensures Sorted(Product(a), defined) && AllOutputs(Product(a)) == ProductWrites(a)
  {
    LayerOutputs(a);
    LayerRuns(a, defined);
    SortedTriple(a.Dql(), a.Mmi(), a.ToFloat(), defined);
  }

  // ---- a graph with one product --------------------------------------------------------------------

  /** What matters of a graph with one dynamic product. */
  ghost predicate OneProduct(nodes: seq<Node>, a: Layer, given: set<Name>) {
    && a.Dql() in nodes && a.Mmi() in nodes && a.ToFloat() in nodes
    && OnlyReader(nodes, a.q, a.Mmi()) && OnlyReader(nodes, a.zeroPoint, a.Mmi())
    && OnlyReader(nodes, a.product, a.ToFloat())
    && (forall n :: n in nodes && n.op.DynamicQuantizeLinear? ==> n == a.Dql())
    && Sorted(nodes, given) && AllOriginal(nodes) && AllFresh(given + AllOutputs(nodes), nodes, 0)
  }

  /** All names of a graph are names of the model. */
  predicate AllGiven(names: set<Name>) {
    forall n :: n in names ==> n.Given?
  }

  lemma OneProductOf(nodes: seq<Node>, a: Layer, given: set<Name>, written: set<Name>)
    requires a.Dql() in nodes && a.Mmi() in nodes && a.ToFloat() in nodes
    requires OnlyReader(nodes, a.q, a.Mmi()) && OnlyReader(nodes, a.zeroPoint, a.Mmi())
    requires OnlyReader(nodes, a.product, a.ToFloat())
    requires forall n :: n in nodes ==> n in Product(a) || n.op.Mul?
    requires Sorted(nodes, given) && AllOriginal(nodes)
    requires AllOutputs(nodes) == written && AllGiven(given) && AllGiven(written)
    ensures OneProduct(nodes, a, given)
  {
    GivenFresh(given + written, nodes);
  }

  predicate HasWeights(a: Layer, table: Env) {
    a.w in table && a.z in table && Centrable(table[a.w], table[a.z])
  }

  lemma OneProductPending(a: Layer, nodes: seq<Node>, table: Env, given: set<Name>)
    requires OneProduct(nodes, a, given) && HasWeights(a, table) && table.Keys <= given
    ensures Pending([], nodes, table, given, 0) && GoneAt(nodes, a.Dql()) == a.Private()
  {
    assert [] + nodes == nodes;
    LayerConvertible(a, nodes, table);
  }

  lemma OneProductGone(a: Layer, nodes: seq<Node>, given: set<Name>)
    requires OneProduct(nodes, a, given) && GoneAt(nodes, a.Dql()) == a.Private()
    ensures GoneAll(nodes, Quantizers(nodes)) <= a.Private()
  {
    forall n | n in GoneAll(nodes, Quantizers(nodes)) ensures n in a.Private() {
      var d := GoneFrom(nodes, Quantizers(nodes), n);
      QuantizersAre(nodes, d);
    }
  }

  /** The tensor that is quantised has an axis and an element other than zero. */
  ghost predicate Quantizes(a: Layer, end: Env) {
    a.x in end && |end[a.x].dims| >= 1 && SomeNonzero(end[a.x].data)
  }

  // ---- what is loose -------------------------------------------------------------------------------

  lemma LeftScalarCombines(op: Op, s: real, t: Tensor)
    requires Arithmetic(op) && !op.Div?
    ensures Combines(op, Tensor([], [s]), t)
  {
    assert PadTo([], |t.dims|) == Ones(|t.dims|);
  }

  /** What the run has given to start with is not loose. */
  lemma GivenExact(m: Meaning, nodes: seq<Node>, env: Env, end: Env, n: Name)
    requires Run(Onnx(m), nodes, env) == Some(end) && n in env
    ensures n in end && end[n] == env[n] && n !in Loosened(nodes, end)
  {
    RunsIffSorted(Onnx(m), nodes, env);
    OutputsNotDefined(nodes, env.Keys);
    LoosenedWritten(nodes, end);
    RunExtends(Onnx(m), nodes, env);
  }

  /** Of the names of a product only the scale is loose, with the rank of what is quantised. */
  lemma ProductLoose(m: Meaning, a: Layer, nodes: seq<Node>, env: Env, end: Env)
    requires Run(Onnx(m), nodes, env) == Some(end) && a.x in env && a.Apart()
    requires a.Dql() in nodes && a.Mmi() in nodes && a.ToFloat() in nodes
    ensures var loose := Loosened(nodes, end);
            && a.scale in loose && a.x in end && loose[a.scale] == |end[a.x].dims|
            && loose.Keys !! {a.q, a.zeroPoint, a.product, a.out}
  {
    var loose := Loosened(nodes, end);
    RunSettled(Onnx(m), nodes, env, end);
    GivenExact(m, nodes, env, end, a.x);
    assert SettledAt(loose, a.Dql(), end) && SettledAt(loose, a.Mmi(), end) && SettledAt(loose, a.ToFloat(), end);
    assert a.q in a.Dql().outputs && a.zeroPoint in a.Dql().outputs;
    assert a.product in a.Mmi().outputs && a.out in a.ToFloat().outputs;
  }

  lemma ScaleIsScalar(m: Meaning, a: Layer, nodes: seq<Node>, env: Env, end: Env)
    requires Run(Onnx(m), nodes, env) == Some(end) && a.Dql() in nodes && Quantizes(a, end)
    ensures a.scale in end && end[a.scale] == Tensor([], [Scale(end[a.x].data)])
  {
    RunComputes(Onnx(m), nodes, env, a.Dql());
    ScaleScalar(m, a.Dql(), end);
  }

  lemma ScaledDefined(m: Meaning, a: Layer, w: Name, t: Name, nodes: seq<Node>, env: Env, end: Env)
    requires Run(Onnx(m), nodes, env) == Some(end) && w in env && Quantizes(a, end)
    requires a.Dql() in nodes && Scaled(a, w, t) in nodes
    ensures Broadcasting(Scaled(a, w, t), end) && Narrow(Scaled(a, w, t), end) == |end[w].dims|
    ensures t in end && |end[t].dims| == |end[w].dims|
  {
    var n := Scaled(a, w, t);
    ScaleIsScalar(m, a, nodes, env, end);
    RunComputes(Onnx(m), nodes, env, n);
    LeftScalarCombines(Mul, Scale(end[a.x].data), end[w]);
    assert n.inputs[0] == a.scale && n.inputs[1] == w;
    ResultRank(m, n, end);
  }

  /** The scale times a given tensor: as narrow as the tensor, and as wide as what is quantised. */
  lemma ScaledLoose(m: Meaning, a: Layer, w: Name, t: Name, nodes: seq<Node>, env: Env, end: Env)
    requires Run(Onnx(m), nodes, env) == Some(end) && a.x in env && w in env && a.Apart() && Quantizes(a, end)
    requires a.Dql() in nodes && a.Mmi() in nodes && a.ToFloat() in nodes && Scaled(a, w, t) in nodes
    ensures w in end && t in end && |end[t].dims| == |end[w].dims|
    ensures var loose, x := Loosened(nodes, end), |end[a.x].dims|;
            && (t in loose <==> |end[w].dims| < x) && (t in loose ==> loose[t] == x)
  {
    var n := Scaled(a, w, t);
    ScaledDefined(m, a, w, t, nodes, env, end);
    ProductLoose(m, a, nodes, env, end);
    GivenExact(m, nodes, env, end, w);
    RunSettled(Onnx(m), nodes, env, end);
    assert SettledAt(Loosened(nodes, end), n, end);
    assert n.inputs[0] == a.scale && n.inputs[1] == w && n.outputs[0] == t;
  }

  // ---- the scale without the product ---------------------------------------------------------------

  /** The product of the layer, and its scale times a given tensor. */
  function Alone(a: Layer, w: Name): (r: seq<Node>) {
    Product(a) + [Scaled(a, w, a.y)]
  }

  predicate InPlace(a: Layer, w: Name, given: set<Name>) {
    a.Apart() && a.Written() !! given && {a.x, a.w, a.z, w} <= given && forall n :: n in given ==> n.Given?
  }

  lemma AloneSorted(a: Layer, w: Name, given: set<Name>)
    requires InPlace(a, w, given)
    ensures Sorted(Alone(a, w), given) && AllOutputs(Alone(a, w)) == a.Written()
  {
    var last := Scaled(a, w, a.y);
    ProductSorted(a, given);
    assert Runnable(last, given + ProductWrites(a));
    SortedCons(last, [], given + ProductWrites(a));
    assert [last] + [] == [last];
    SortedAppend(Product(a), [last], given);
    OutputsAppend(Product(a), [last]);
  }

  lemma AloneReaders(a: Layer, w: Name, given: set<Name>)
    requires InPlace(a, w, given)
    ensures var nodes := Alone(a, w);
            && OnlyReader(nodes, a.q, a.Mmi()) && OnlyReader(nodes, a.zeroPoint, a.Mmi())
            && OnlyReader(nodes, a.product, a.ToFloat()) && OnlyReader(nodes, a.scale, Scaled(a, w, a.y))
  {
  }

  lemma AloneOriginal(a: Layer, w: Name)
    requires a.Apart()
    ensures AllOriginal(Alone(a, w))
  {
  }

  lemma AloneNodes(a: Layer, w: Name, nodes: seq<Node>)
    requires nodes == Alone(a, w)
    ensures a.Dql() in nodes && a.Mmi() in nodes && a.ToFloat() in nodes && Scaled(a, w, a.y) in nodes
    ensures forall n :: n in nodes ==> n in Product(a) || n == Scaled(a, w, a.y)
  {
    assert nodes[0] == a.Dql() && nodes[1] == a.Mmi() && nodes[2] == a.ToFloat() && nodes[3] == Scaled(a, w, a.y);
  }

  lemma AloneIs(a: Layer, w: Name, given: set<Name>)
    requires InPlace(a, w, given)
    ensures OneProduct(Alone(a, w), a, given)
  {
    AloneSorted(a, w, given);
    AloneReaders(a, w, given);
    AloneOriginal(a, w);
    AloneNodes(a, w, Alone(a, w));
    OneProductOf(Alone(a, w), a, given, a.Written());
  }

  /** The names of a product that are read, other than the scale, are exact. */
  lemma ProductReadsExact(m: Meaning, a: Layer, nodes: seq<Node>, env: Env, end: Env, n: Node)
    requires Run(Onnx(m), nodes, env) == Some(end) && a.Apart() && n in Product(a)
    requires a.x in env && a.w in env && a.z in env
    requires a.Dql() in nodes && a.Mmi() in nodes && a.ToFloat() in nodes
    ensures !ReadsLoose(n, Loosened(nodes, end))
  {
    ProductLoose(m, a, nodes, env, end);
    GivenExact(m, nodes, env, end, a.x);
    GivenExact(m, nodes, env, end, a.w);
    GivenExact(m, nodes, env, end, a.z);
  }

  /** A graph that starts with the product of the layer, and its run. */
  ghost predicate RunsOn(m: Meaning, a: Layer, nodes: seq<Node>, inits: seq<Initializer>, env: Env, end: Env) {
    && OneProduct(nodes, a, env.Keys) && HasWeights(a, Table(inits)) && Extends(Table(inits), env)
    && Run(Onnx(m), nodes, env) == Some(end) && Quantizes(a, end) && a.Apart()
    && a.x in env && a.w in env && a.z in env
  }

  lemma OneNonzero(m: Meaning, a: Layer, nodes: seq<Node>, inits: seq<Initializer>, env: Env, end: Env)
    requires RunsOn(m, a, nodes, inits, env, end)
    ensures Started(m, nodes, inits, env, end) && AllNonzero(nodes, end)
    ensures GoneAll(nodes, Quantizers(nodes)) <= a.Private()
  {
    OneProductPending(a, nodes, Table(inits), env.Keys);
    OneProductGone(a, nodes, env.Keys);
  }

  /** Besides the product only broadcasting nodes. */
  ghost predicate RestCombines(a: Layer, nodes: seq<Node>, end: Env) {
    forall n :: n in nodes ==> n in Product(a) || Broadcasting(n, end)
  }

  lemma ProductCombined(m: Meaning, a: Layer, nodes: seq<Node>, inits: seq<Initializer>, env: Env, end: Env)
    requires RunsOn(m, a, nodes, inits, env, end) && RestCombines(a, nodes, end)
    ensures AllCombined(nodes, end)
  {
    forall n | n in nodes && ReadsLoose(n, Loosened(nodes, end)) ensures Broadcasting(n, end) {
      if n in Product(a) {
        ProductReadsExact(m, a, nodes, env, end, n);
      }
    }
  }

  /** The pass over such a graph, at one name that is left. */
  lemma PassAt(m: Meaning, a: Layer, nodes: seq<Node>, inits: seq<Initializer>, env: Env, end: Env, o: Name)
    returns (result: Rewrite, after: Env)
    requires RunsOn(m, a, nodes, inits, env, end) && RestCombines(a, nodes, end) && o in end && o !in a.Private()
    ensures RewriteAll(nodes, inits, Quantizers(nodes), 0) == Outcome(result, None)
    ensures Run(Onnx(m), result.nodes, env + Table(result.inits)) == Some(after)
    ensures o in after && after[o] == Tensor(PadTo(end[o].dims, Reach(Loosened(nodes, end), end, o)), end[o].data)
    ensures after[o] == end[o] <==> o !in Loosened(nodes, end)
  {
    OneNonzero(m, a, nodes, inits, env, end);
    ProductCombined(m, a, nodes, inits, env, end);
    result, after := LoosenedPassExactly(m, nodes, inits, env, end);
  }

  lemma AloneCombines(m: Meaning, a: Layer, w: Name, nodes: seq<Node>, env: Env, end: Env)
    requires Run(Onnx(m), nodes, env) == Some(end) && w in env && Quantizes(a, end)
    requires a.Dql() in nodes && Scaled(a, w, a.y) in nodes
    requires forall n :: n in nodes ==> n in Product(a) || n == Scaled(a, w, a.y)
    ensures RestCombines(a, nodes, end)
  {
    ScaledDefined(m, a, w, a.y, nodes, env, end);
  }

  lemma AloneReach(m: Meaning, a: Layer, w: Name, nodes: seq<Node>, env: Env, end: Env)
    requires Run(Onnx(m), nodes, env) == Some(end) && a.x in env && w in env && a.Apart() && Quantizes(a, end)
    requires a.Dql() in nodes && a.Mmi() in nodes && a.ToFloat() in nodes && Scaled(a, w, a.y) in nodes
    requires |env[w].dims| < |end[a.x].dims|
    ensures a.y in end && a.y !in a.Private() && a.y in Loosened(nodes, end)
    ensures Reach(Loosened(nodes, end), end, a.y) == |end[a.x].dims| && |end[a.y].dims| == |env[w].dims|
  {
    ScaledLoose(m, a, w, a.y, nodes, env, end);
    GivenExact(m, nodes, env, end, w);
  }

  /**
   * A scale that meets a tensor with fewer axes than what is quantised, and no product: the pass goes through, and
   * the result has the axes of what is quantised instead of those of the tensor.
   */
  lemma ScaleAlone(m: Meaning, a: Layer, w: Name, inits: seq<Initializer>, env: Env, end: Env)
    returns (result: Rewrite, after: Env)
    requires InPlace(a, w, env.Keys) && HasWeights(a, Table(inits)) && Extends(Table(inits), env)
    requires Run(Onnx(m), Alone(a, w), env) == Some(end) && Quantizes(a, end) && |env[w].dims| < |end[a.x].dims|
    ensures RewriteAll(Alone(a, w), inits, Quantizers(Alone(a, w)), 0) == Outcome(result, None)
    ensures Run(Onnx(m), result.nodes, env + Table(result.inits)) == Some(after)
    ensures a.y in end && a.y in after && after[a.y] != end[a.y]
    ensures |end[a.y].dims| == |env[w].dims| && after[a.y].dims == PadTo(end[a.y].dims, |end[a.x].dims|)
  {
    AloneIs(a, w, env.Keys);
    AloneNodes(a, w, Alone(a, w));
    AloneCombines(m, a, w, Alone(a, w), env, end);
    AloneReach(m, a, w, Alone(a, w), env, end);
    result, after := PassAt(m, a, Alone(a, w), inits, env, end, a.y);
  }

  lemma ScalarPadded(dims: seq<nat>)
    requires |dims| == 0
    ensures dims == [] && PadTo(dims, 2) == [1, 1]
  {
    assert dims == [] && Ones(2) == [1, 1];
  }

  /** With a scalar and an input of shape [1, 1]: a scalar before the pass, a tensor of that shape after it. */
  lemma ScalarAlone(m: Meaning, a: Layer, w: Name, inits: seq<Initializer>, env: Env)
    returns (end: Env, result: Rewrite, after: Env)
    requires InPlace(a, w, env.Keys) && HasWeights(a, Table(inits)) && Extends(Table(inits), env)
    requires env[a.x].dims == [1, 1] && SomeNonzero(env[a.x].data) && env[w].dims == []
    ensures Run(Onnx(m), Alone(a, w), env) == Some(end)
    ensures RewriteAll(Alone(a, w), inits, Quantizers(Alone(a, w)), 0) == Outcome(result, None)
    ensures Run(Onnx(m), result.nodes, env + Table(result.inits)) == Some(after)
    ensures a.y in end && end[a.y].dims == [] && a.y in after && after[a.y].dims == [1, 1]
  {
    AloneSorted(a, w, env.Keys);
    RunsIffSorted(Onnx(m), Alone(a, w), env);
    end := Run(Onnx(m), Alone(a, w), env).value;
    RunExtends(Onnx(m), Alone(a, w), env);
    result, after := ScaleAlone(m, a, w, inits, env, end);
    ScalarPadded(end[a.y].dims);
  }

  const SCALES: seq<Initializer> := WEIGHTS + [Initializer(Given("c"), Tensor([], [5.0]))]

  /** The layer's input is one element with two axes. */
  const START: Env := map[
    Given("x") := Tensor([1, 1], [2.0]), Given("w") := Tensor([1, 1], [3.0]), Given("z") := Tensor([], [1.0]),
    Given("c") := Tensor([], [5.0])]

  lemma TablesOf()
    ensures Table(SCALES).Keys == {Given("w"), Given("z"), Given("c")} && Extends(Table(SCALES), START)
    ensures HasWeights(SAMPLE, Table(SCALES))
  {
    assert SCALES[..2] == WEIGHTS && SCALES[2] == Initializer(Given("c"), Tensor([], [5.0]));
    assert Table(WEIGHTS[..1]) == map[Given("w") := WEIGHTS[0].value] by {
      assert Table(WEIGHTS[..1][..0]) == map[];
    }
    assert Table(WEIGHTS) == map[Given("w") := WEIGHTS[0].value, Given("z") := WEIGHTS[1].value];
    assert Centrable(WEIGHTS[0].value, WEIGHTS[1].value);
  }

  lemma SampleInPlace()
    ensures InPlace(SAMPLE, Given("c"), START.Keys)
  {
  }

  /** One such graph. */
  lemma ScaleAloneExample(m: Meaning) returns (end: Env, result: Rewrite, after: Env)
    ensures var nodes := Alone(SAMPLE, Given("c"));
            && Run(Onnx(m), nodes, START) == Some(end)
            && RewriteAll(nodes, SCALES, Quantizers(nodes), 0) == Outcome(result, None)
            && Run(Onnx(m), result.nodes, START + Table(result.inits)) == Some(after)
    ensures SAMPLE.y in end && end[SAMPLE.y].dims == [] && SAMPLE.y in after && after[SAMPLE.y].dims == [1, 1]
  {
    SampleInPlace();
    TablesOf();
    assert START[SAMPLE.x] == Tensor([1, 1], [2.0]) && [2.0][0] != 0.0;
    end, result, after := ScalarAlone(m, SAMPLE, Given("c"), SCALES, START);
  }

  // ---- both scales, then the product ---------------------------------------------------------------

  /** The product of the layer, its scale times a scale of the weights, and the product times both. */
  function Chained(a: Layer, w: Name, t: Name): (r: seq<Node>) {
    Product(a) + [Scaled(a, w, t), Rescaled(a, t)]
  }

  predicate ChainedInPlace(a: Layer, w: Name, t: Name, given: set<Name>) {
    InPlace(a, w, given) && t.Given? && t !in given && t !in a.Written()
  }

  lemma ChainedSorted(a: Layer, w: Name, t: Name, given: set<Name>)
    requires ChainedInPlace(a, w, t, given)
    ensures Sorted(Chained(a, w, t), given) && AllOutputs(Chained(a, w, t)) == a.Written() + {t}
  {
    var first, last := Scaled(a, w, t), Rescaled(a, t);
    ProductSorted(a, given);
    assert Outputs(first) == {t} && Outputs(last) == {a.y};
    assert Runnable(first, given + ProductWrites(a)) && Runnable(last, given + ProductWrites(a) + {t});
    SortedPair(first, last, given + ProductWrites(a));
    SortedAppend(Product(a), [first, last], given);
    OutputsAppend(Product(a), [first, last]);
  }

  lemma ChainedReaders(a: Layer, w: Name, t: Name, given: set<Name>)
    requires ChainedInPlace(a, w, t, given)
    ensures var nodes := Chained(a, w, t);
            && OnlyReader(nodes, a.q, a.Mmi()) && OnlyReader(nodes, a.zeroPoint, a.Mmi())
            && OnlyReader(nodes, a.product, a.ToFloat())
  {
  }

  lemma ChainedOriginal(a: Layer, w: Name, t: Name)
    requires a.Apart() && t.Given?
    ensures AllOriginal(Chained(a, w, t))
  {
  }

  lemma ChainedNodes(a: Layer, w: Name, t: Name, nodes: seq<Node>)
    requires nodes == Chained(a, w, t)
    ensures a.Dql() in nodes && a.Mmi() in nodes && a.ToFloat() in nodes
    ensures Scaled(a, w, t) in nodes && Rescaled(a, t) in nodes
    ensures forall n :: n in nodes ==> n in Product(a) || n == Scaled(a, w, t) || n == Rescaled(a, t)
  {
    assert nodes[0] == a.Dql() && nodes[1] == a.Mmi() && nodes[2] == a.ToFloat();
    assert nodes[3] == Scaled(a, w, t) && nodes[4] == Rescaled(a, t);
  }

  lemma ChainedGiven(a: Layer, w: Name, t: Name, given: set<Name>)
    requires ChainedInPlace(a, w, t, given)
    ensures AllGiven(given) && AllGiven(a.Written() + {t})
  {
  }

  lemma ChainedMul(a: Layer, w: Name, t: Name)
    ensures forall n :: n in Chained(a, w, t) ==> n in Product(a) || n.op.Mul?
  {
    ChainedNodes(a, w, t, Chained(a, w, t));
  }

  lemma ChainedIs(a: Layer, w: Name, t: Name, given: set<Name>)
    requires ChainedInPlace(a, w, t, given)
    ensures OneProduct(Chained(a, w, t), a, given)
  {
    ChainedSorted(a, w, t, given);
    ChainedReaders(a, w, t, given);
    ChainedOriginal(a, w, t);
    ChainedNodes(a, w, t, Chained(a, w, t));
    ChainedMul(a, w, t);
    ChainedGiven(a, w, t, given);
    OneProductOf(Chained(a, w, t), a, given, a.Written() + {t});
  }

  lemma RescaledNarrow(a: Layer, t: Name, loose: Loose, end: Env)
    requires Broadcasting(Rescaled(a, t), end) && SettledAt(loose, Rescaled(a, t), end) && a.out !in loose
    requires Reach(loose, end, t) <= |end[a.out].dims|
    ensures a.y !in loose
  {
    var n := Rescaled(a, t);
    assert n.inputs[0] == a.out && n.inputs[1] == t && n.outputs[0] == a.y;
  }

  /** The product has at least the axes of both, so the result is not loose. */
  lemma ChainedReach(m: Meaning, a: Layer, w: Name, t: Name, nodes: seq<Node>, env: Env, end: Env)
    requires Run(Onnx(m), nodes, env) == Some(end) && a.x in env && w in env && a.Apart() && Quantizes(a, end)
    requires a.Dql() in nodes && a.Mmi() in nodes && a.ToFloat() in nodes
    requires Scaled(a, w, t) in nodes && Rescaled(a, t) in nodes
    requires Broadcasting(Rescaled(a, t), end) && |end[a.x].dims| <= |end[a.out].dims|
    requires |env[w].dims| <= |end[a.out].dims|
    ensures a.y in end && a.y !in Loosened(nodes, end) && a.y !in a.Private()
  {
    ScaledLoose(m, a, w, t, nodes, env, end);
    ProductLoose(m, a, nodes, env, end);
    GivenExact(m, nodes, env, end, w);
    assert SettledAt(Loosened(nodes, end), Rescaled(a, t), end) by {
      RunSettled(Onnx(m), nodes, env, end);
    }
    RunComputes(Onnx(m), nodes, env, Rescaled(a, t));
    RescaledNarrow(a, t, Loosened(nodes, end), end);
  }

  lemma ChainedCombines(m: Meaning, a: Layer, w: Name, t: Name, nodes: seq<Node>, env: Env, end: Env)
    requires Run(Onnx(m), nodes, env) == Some(end) && w in env && Quantizes(a, end)
    requires nodes == Chained(a, w, t) && Broadcasting(Rescaled(a, t), end)
    ensures RestCombines(a, nodes, end)
  {
    ChainedNodes(a, w, t, nodes);
    ScaledDefined(m, a, w, t, nodes, env, end);
  }

  lemma ChainedRuns(m: Meaning, a: Layer, w: Name, t: Name, nodes: seq<Node>, inits: seq<Initializer>, env: Env,
                    end: Env)
    requires ChainedInPlace(a, w, t, env.Keys) && HasWeights(a, Table(inits)) && Extends(Table(inits), env)
    requires nodes == Chained(a, w, t) && Run(Onnx(m), nodes, env) == Some(end) && Quantizes(a, end)
    requires Broadcasting(Rescaled(a, t), end)
    ensures RunsOn(m, a, nodes, inits, env, end) && RestCombines(a, nodes, end)
  {
    ChainedIs(a, w, t, env.Keys);
    ChainedCombines(m, a, w, t, nodes, env, end);
  }

  /**
   * The scale times a scale of the weights, and the product times both: where the product has at least the axes of
   * what is quantised and of the scale of the weights, the pass keeps its rescaled value exactly.
   */
  lemma WeightScaled(m: Meaning, a: Layer, w: Name, t: Name, inits: seq<Initializer>, env: Env, end: Env)
    returns (result: Rewrite, after: Env)
    requires ChainedInPlace(a, w, t, env.Keys) && HasWeights(a, Table(inits)) && Extends(Table(inits), env)
    requires Run(Onnx(m), Chained(a, w, t), env) == Some(end) && Quantizes(a, end) && Broadcasting(Rescaled(a, t), end)
    requires |end[a.x].dims| <= |end[a.out].dims| && |env[w].dims| <= |end[a.out].dims|
    ensures RewriteAll(Chained(a, w, t), inits, Quantizers(Chained(a, w, t)), 0) == Outcome(result, None)
    ensures Run(Onnx(m), result.nodes, env + Table(result.inits)) == Some(after)
    ensures a.y in end && a.y in after && after[a.y] == end[a.y]
  {
    var nodes := Chained(a, w, t);
    assert a.y in end && a.y !in Loosened(nodes, end) && a.y !in a.Private() by {
      ChainedNodes(a, w, t, nodes);
      ChainedReach(m, a, w, t, nodes, env, end);
    }
    ChainedRuns(m, a, w, t, nodes, inits, env, end);
    result, after := PassAt(m, a, nodes, inits, env, end, a.y);
  }
}
