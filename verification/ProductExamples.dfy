/** Two graphs: dynamic products in sequence, and a quantised value with a second reader. */
module ProductExamples {
  import opened Common
  import opened Quantization
  import opened OnnxGraph
  import opened OnnxOrder
  import opened OnnxRun
  import opened Tensors
  import opened MatmulSite
  import opened DynamicMatmuls
  import opened MatmulNames
  import opened MatmulNext
  import opened MatmulValues
  import opened MatmulPlaces
  import opened LooseRanks
  import opened RescaledProducts

  /** A dynamic product and the Mul that rescales it, by the names that they read and write. */
  datatype Layer = Layer(x: Name, w: Name, z: Name, q: Name, scale: Name, zeroPoint: Name, product: Name, out: Name,
                         y: Name)
  {
    function Dql(): (n: Node) {
      Node(DynamicQuantizeLinear, "quantize", [x], [q, scale, zeroPoint])
    }

    function Mmi(): (n: Node) {
      Node(MatMulInteger, "product", [q, w, zeroPoint, z], [product])
    }

    function ToFloat(): (n: Node) {
      Node(Cast(true), "cast", [product], [out])
    }

    function Rescale(): (n: Node) {
      Node(Mul, "rescale", [out, scale], [y])
    }

    function Nodes(): (r: seq<Node>) {
      [Dql(), Mmi(), ToFloat(), Rescale()]
    }

    function Written(): (s: set<Name>) {
      {q, scale, zeroPoint, product, out, y}
    }

    function Private(): (s: set<Name>) {
      {q, zeroPoint, product}
    }

    /** Six different names of the model. */
    predicate Apart() {
      && q !in {scale, zeroPoint, product, out, y} && scale !in {zeroPoint, product, out, y}
      && zeroPoint !in {product, out, y} && product !in {out, y} && out != y
      && q.Given? && scale.Given? && zeroPoint.Given? && product.Given? && out.Given? && y.Given?
    }
  }

  lemma LayerOutputs(a: Layer)
    ensures Outputs(a.Dql()) == {a.q, a.scale, a.zeroPoint} && Outputs(a.Mmi()) == {a.product}
    ensures Outputs(a.ToFloat()) == {a.out} && Outputs(a.Rescale()) == {a.y}
  {
  }

  lemma LayerRuns(a: Layer, defined: set<Name>)
    requires a.Apart() && a.Written() !! defined && a.x in defined && a.w in defined && a.z in defined
    ensures Runnable(a.Dql(), defined) && Runnable(a.Mmi(), defined + {a.q, a.scale, a.zeroPoint})
    ensures Runnable(a.ToFloat(), defined + {a.q, a.scale, a.zeroPoint} + {a.product})
    ensures Runnable(a.Rescale(), defined + {a.q, a.scale, a.zeroPoint} + {a.product} + {a.out})
  {
  }

  lemma LayerSorted(a: Layer, defined: set<Name>)
    requires a.Apart() && a.Written() !! defined && a.x in defined && a.w in defined && a.z in defined
    ensures Sorted(a.Nodes(), defined) && AllOutputs(a.Nodes()) == a.Written()
  {
    LayerOutputs(a);
    LayerRuns(a, defined);
    var quantized := defined + {a.q, a.scale, a.zeroPoint};
    SortedPair(a.ToFloat(), a.Rescale(), quantized + {a.product});
    SortedCons(a.Mmi(), [a.ToFloat(), a.Rescale()], quantized);
    SortedCons(a.Dql(), [a.Mmi()] + [a.ToFloat(), a.Rescale()], defined);
    assert [a.Dql()] + ([a.Mmi()] + [a.ToFloat(), a.Rescale()]) == a.Nodes();
  }

  // ---- who reads what ------------------------------------------------------------------------------

  lemma LayerReaders(a: Layer)
    requires a.Apart() && {a.x, a.w, a.z} !! a.Written()
    ensures OnlyReader(a.Nodes(), a.q, a.Mmi()) && OnlyReader(a.Nodes(), a.zeroPoint, a.Mmi())
    ensures OnlyReader(a.Nodes(), a.product, a.ToFloat()) && OnlyReader(a.Nodes(), a.scale, a.Rescale())
  {
  }

  /** What a layer reads. */
  lemma LayerReads(a: Layer, n: Node, name: Name)
    requires n in a.Nodes() && name in n.inputs
    ensures name in {a.x, a.w, a.z} + a.Written()
  {
  }

  lemma OnlyReaderOfBoth(a: Layer, b: Layer, first: seq<Node>, second: seq<Node>, name: Name, reader: Node)
    requires first == a.Nodes() && second == b.Nodes() && OnlyReader(first, name, reader)
    requires name !in {b.x, b.w, b.z} + b.Written()
    ensures OnlyReader(first + second, name, reader) && OnlyReader(second + first, name, reader)
  {
    forall n | n in second ensures name !in n.inputs {
      if name in n.inputs {
        LayerReads(b, n, name);
      }
    }
  }

  /** In a graph that holds the layer and reads its private names nowhere else, the pass finds it. */
  lemma LayerConvertible(a: Layer, nodes: seq<Node>, table: Env)
    requires a.Mmi() in nodes && a.ToFloat() in nodes && a.w in table
    requires a.z in table && Centrable(table[a.w], table[a.z])
    requires OnlyReader(nodes, a.q, a.Mmi()) && OnlyReader(nodes, a.zeroPoint, a.Mmi())
    requires OnlyReader(nodes, a.product, a.ToFloat())
    ensures Convertible(nodes, table, a.Dql())
    ensures SiteOf(nodes, table, a.Dql()) == Ok(Site(a.Dql(), a.Mmi(), a.ToFloat(), table[a.w], table[a.z]))
    ensures GoneAt(nodes, a.Dql()) == a.Private()
  {
    OnlyProductFound(nodes, a.q, a.Mmi());
    OnlyCastFound(nodes, a.product, a.ToFloat());
    LayerOutputs(a);
  }

  // ---- two products in sequence --------------------------------------------------------------------

  /** The second layer quantises what the first one rescales; no name is written twice. */
  predicate InSequence(a: Layer, b: Layer, given: set<Name>) {
    && a.Apart() && b.Apart() && b.x == a.y && a.Written() !! b.Written() && given !! a.Written() + b.Written()
    && {a.x, a.w, a.z, b.w, b.z} <= given && forall n :: n in given ==> n.Given?
  }

  lemma SequenceSorted(a: Layer, b: Layer, given: set<Name>)
    requires InSequence(a, b, given)
    ensures Sorted(a.Nodes() + b.Nodes(), given) && AllOutputs(a.Nodes() + b.Nodes()) == a.Written() + b.Written()
  {
    LayerSorted(a, given);
    LayerSorted(b, given + a.Written());
    SortedAppend(a.Nodes(), b.Nodes(), given);
    OutputsAppend(a.Nodes(), b.Nodes());
  }

  /** The layer is part of the graph, and nothing else reads its private names or its scale. */
  predicate Holds(nodes: seq<Node>, a: Layer) {
    && a.Dql() in nodes && a.Mmi() in nodes && a.ToFloat() in nodes
    && OnlyReader(nodes, a.q, a.Mmi()) && OnlyReader(nodes, a.zeroPoint, a.Mmi())
    && OnlyReader(nodes, a.product, a.ToFloat()) && OnlyReader(nodes, a.scale, a.Rescale())
  }

  /** Nothing is quantised but by the two layers. */
  predicate TwoQuantizers(nodes: seq<Node>, a: Layer, b: Layer) {
    forall d :: d in nodes && d.op.DynamicQuantizeLinear? ==> d == a.Dql() || d == b.Dql()
  }

  lemma HoldsBeside(a: Layer, b: Layer, nodes: seq<Node>)
    requires a.Apart() && {a.x, a.w, a.z} !! a.Written() && {b.x, b.w, b.z} + b.Written() !! a.Private() + {a.scale}
    requires nodes == a.Nodes() + b.Nodes() || nodes == b.Nodes() + a.Nodes()
    ensures Holds(nodes, a)
  {
    var first, second := a.Nodes(), b.Nodes();
    LayerReaders(a);
    OnlyReaderOfBoth(a, b, first, second, a.q, a.Mmi());
    OnlyReaderOfBoth(a, b, first, second, a.zeroPoint, a.Mmi());
    OnlyReaderOfBoth(a, b, first, second, a.product, a.ToFloat());
    OnlyReaderOfBoth(a, b, first, second, a.scale, a.Rescale());
    assert first[0] in nodes && first[1] in nodes && first[2] in nodes;
  }

  lemma OnlyTwo(a: Layer, b: Layer, nodes: seq<Node>)
    requires nodes == a.Nodes() + b.Nodes()
    ensures TwoQuantizers(nodes, a, b)
  {
  }

  lemma SequenceHolds(a: Layer, b: Layer, given: set<Name>, nodes: seq<Node>)
    requires InSequence(a, b, given) && nodes == a.Nodes() + b.Nodes()
    ensures Holds(nodes, a) && Holds(nodes, b)
  {
    HoldsBeside(a, b, nodes);
    HoldsBeside(b, a, nodes);
  }

  lemma GivenFresh(names: set<Name>, todo: seq<Node>)
    requires forall n :: n in names ==> n.Given?
    ensures AllFresh(names, todo, 0)
  {
  }

  lemma LayerOriginal(a: Layer)
    requires a.Apart()
    ensures AllOriginal(a.Nodes())
  {
  }

  /** The weights of both layers are initializers, and each has a zero point that broadcasts. */
  predicate Weighted(a: Layer, b: Layer, table: Env) {
    && a.w in table && a.z in table && b.w in table && b.z in table
    && Centrable(table[a.w], table[a.z]) && Centrable(table[b.w], table[b.z])
  }

  lemma SequenceConvertible(a: Layer, b: Layer, nodes: seq<Node>, table: Env)
    requires Holds(nodes, a) && Holds(nodes, b) && TwoQuantizers(nodes, a, b) && Weighted(a, b, table)
    ensures AllConvertible(nodes, nodes, table)
    ensures GoneAt(nodes, a.Dql()) == a.Private() && GoneAt(nodes, b.Dql()) == b.Private()
  {
    LayerConvertible(a, nodes, table);
    LayerConvertible(b, nodes, table);
  }

  lemma BothOriginal(a: seq<Node>, b: seq<Node>)
    requires AllOriginal(a) && AllOriginal(b)
    ensures AllOriginal(a + b)
  {
  }

  lemma SequenceOriginal(a: Layer, b: Layer, nodes: seq<Node>)
    requires a.Apart() && b.Apart() && nodes == a.Nodes() + b.Nodes()
    ensures AllOriginal(nodes)
  {
    LayerOriginal(a);
    LayerOriginal(b);
    BothOriginal(a.Nodes(), b.Nodes());
  }

  lemma SequenceFresh(a: Layer, b: Layer, given: set<Name>, nodes: seq<Node>)
    requires InSequence(a, b, given) && AllOutputs(nodes) == a.Written() + b.Written()
    ensures AllFresh(given + AllOutputs(nodes), nodes, 0)
  {
    GivenFresh(given + AllOutputs(nodes), nodes);
  }

  /** The names whose values are compared. */
  function Results(a: Layer, b: Layer): (s: set<Name>) {
    {a.out, a.y, b.out, b.y}
  }

  /** What matters of the names of two layers in sequence. */
  predicate NamesApart(a: Layer, b: Layer) {
    Results(a, b) !! {a.scale, b.scale} && Results(a, b) !! a.Private() + b.Private()
  }

  /** What matters of two layers in sequence. */
  ghost predicate Sequence(nodes: seq<Node>, a: Layer, b: Layer, given: set<Name>) {
    && Holds(nodes, a) && Holds(nodes, b) && TwoQuantizers(nodes, a, b)
    && NamesApart(a, b) && Results(a, b) <= AllOutputs(nodes)
    && Sorted(nodes, given) && AllOriginal(nodes) && AllFresh(given + AllOutputs(nodes), nodes, 0)
  }

  lemma SequenceNames(a: Layer, b: Layer, given: set<Name>)
    requires InSequence(a, b, given)
    ensures NamesApart(a, b) && Results(a, b) <= a.Written() + b.Written()
  {
  }

  lemma SequenceOf(a: Layer, b: Layer, given: set<Name>, nodes: seq<Node>)
    requires InSequence(a, b, given) && nodes == a.Nodes() + b.Nodes()
    ensures Sequence(nodes, a, b, given)
  {
    SequenceSorted(a, b, given);
    SequenceHolds(a, b, given, nodes);
    OnlyTwo(a, b, nodes);
    SequenceNames(a, b, given);
    SequenceOriginal(a, b, nodes);
    SequenceFresh(a, b, given, nodes);
  }

  lemma SequencePending(a: Layer, b: Layer, nodes: seq<Node>, table: Env, given: set<Name>)
    requires Sequence(nodes, a, b, given) && Weighted(a, b, table) && table.Keys <= given
    ensures Pending([], nodes, table, given, 0)
  {
    assert [] + nodes == nodes;
    SequenceConvertible(a, b, nodes, table);
  }

  lemma SequenceGone(a: Layer, b: Layer, nodes: seq<Node>)
    requires TwoQuantizers(nodes, a, b) && GoneAt(nodes, a.Dql()) == a.Private()
    requires GoneAt(nodes, b.Dql()) == b.Private()
    ensures GoneAll(nodes, Quantizers(nodes)) <= a.Private() + b.Private()
  {
    forall n | n in GoneAll(nodes, Quantizers(nodes)) ensures n in a.Private() + b.Private() {
      var d := GoneFrom(nodes, Quantizers(nodes), n);
      QuantizersAre(nodes, d);
    }
  }

  // ---- the scales of the two layers ----------------------------------------------------------------

  /** The product has at least the axes of what is quantised, and that has one and an element other than zero. */
  ghost predicate Ranked(a: Layer, end: Env) {
    && a.x in end && a.out in end && 1 <= |end[a.x].dims| <= |end[a.out].dims| && SomeNonzero(end[a.x].data)
  }

  lemma SequenceScales(a: Layer, b: Layer, nodes: seq<Node>, end: Env)
    requires TwoQuantizers(nodes, a, b)
    ensures Scales(nodes, end).Keys <= {a.scale, b.scale}
  {
    forall n | n in Scales(nodes, end) ensures n == a.scale || n == b.scale {
      var d := ScaleWriter(nodes, end, n);
    }
  }

  lemma LayerAbsorbs(m: Meaning, a: Layer, loose: Loose, end: Env)
    requires Ranked(a, end) && Computes(Onnx(m), a.Dql(), end) && a.out !in loose
    requires a.scale in loose && loose[a.scale] == |end[a.x].dims|
    ensures Absorbs(a.Rescale(), loose, end)
  {
    assert Args(a.Dql(), end) == [end[a.x]];
    assert end[a.Dql().outputs[1]] == Tensor([], [Scale(end[a.x].data)]);
    ScalarCombines(Mul, end[a.out], Scale(end[a.x].data));
  }

  lemma ScaleAbsorbed(m: Meaning, a: Layer, nodes: seq<Node>, env: Env, end: Env)
    requires Holds(nodes, a) && Run(Onnx(m), nodes, env) == Some(end) && Sorted(nodes, env.Keys)
    requires Ranked(a, end) && a.out !in Scales(nodes, end)
    ensures Absorbs(a.Rescale(), Scales(nodes, end), end)
  {
    RunComputes(Onnx(m), nodes, env, a.Dql());
    ScaleRank(nodes, env.Keys, end, a.Dql());
    LayerAbsorbs(m, a, Scales(nodes, end), end);
  }

  lemma SequenceNonzero(a: Layer, b: Layer, nodes: seq<Node>, end: Env)
    requires TwoQuantizers(nodes, a, b) && Ranked(a, end) && Ranked(b, end)
    ensures AllNonzero(nodes, end)
  {
  }

  /** Only the two rescaling nodes read a scale. */
  lemma ScaleReader(a: Layer, b: Layer, nodes: seq<Node>, end: Env, n: Node)
    requires OnlyReader(nodes, a.scale, a.Rescale()) && OnlyReader(nodes, b.scale, b.Rescale())
    requires TwoQuantizers(nodes, a, b) && n in nodes && ReadsLoose(n, Scales(nodes, end))
    ensures n == a.Rescale() || n == b.Rescale()
  {
    SequenceScales(a, b, nodes, end);
    var i :| 0 <= i < |n.inputs| && n.inputs[i] in Scales(nodes, end);
    assert n.inputs[i] in n.inputs;
  }

  lemma SequenceRescaled(m: Meaning, a: Layer, b: Layer, nodes: seq<Node>, env: Env, end: Env)
    requires Holds(nodes, a) && Holds(nodes, b) && TwoQuantizers(nodes, a, b) && NamesApart(a, b)
    requires Run(Onnx(m), nodes, env) == Some(end) && Sorted(nodes, env.Keys) && Ranked(a, end) && Ranked(b, end)
    ensures AllRescaled(nodes, end)
  {
    var loose := Scales(nodes, end);
    SequenceScales(a, b, nodes, end);
    ScaleAbsorbed(m, a, nodes, env, end);
    ScaleAbsorbed(m, b, nodes, env, end);
    forall n | n in nodes && ReadsLoose(n, loose) ensures Absorbs(n, loose, end) {
      ScaleReader(a, b, nodes, end, n);
    }
  }

  lemma ResultsStay(a: Layer, b: Layer, nodes: seq<Node>, given: set<Name>, table: Env, end: Env)
    requires Sequence(nodes, a, b, given) && Weighted(a, b, table)
    ensures Results(a, b) !! Scales(nodes, end).Keys && Results(a, b) !! GoneAll(nodes, Quantizers(nodes))
    ensures Results(a, b) <= AllOutputs(nodes)
  {
    SequenceConvertible(a, b, nodes, table);
    SequenceGone(a, b, nodes);
    SequenceScales(a, b, nodes, end);
  }

  lemma SequenceKept(m: Meaning, a: Layer, b: Layer, nodes: seq<Node>, inits: seq<Initializer>, env: Env, end: Env)
    returns (result: Rewrite, after: Env)
    requires Sequence(nodes, a, b, env.Keys) && Weighted(a, b, Table(inits)) && Extends(Table(inits), env)
    requires Run(Onnx(m), nodes, env) == Some(end) && Ranked(a, end) && Ranked(b, end)
    ensures RewriteAll(nodes, inits, Quantizers(nodes), 0) == Outcome(result, None)
    ensures Run(Onnx(m), result.nodes, env + Table(result.inits)) == Some(after)
    ensures forall n :: n in Results(a, b) ==> n in end && n in after && after[n] == end[n]
  {
    SequencePending(a, b, nodes, Table(inits), env.Keys);
    SequenceRescaled(m, a, b, nodes, env, end);
    SequenceNonzero(a, b, nodes, end);
    result, after := RescaledKeeps(m, nodes, inits, env, end);
    RunDefines(Onnx(m), nodes, env);
    ResultsStay(a, b, nodes, env.Keys, Table(inits), end);
  }

  /** Two dynamic products in sequence: the pass keeps both products and both rescaled results exactly. */
  lemma TwoProductsInSequence(m: Meaning, a: Layer, b: Layer, inits: seq<Initializer>, env: Env, end: Env)
    returns (result: Rewrite, after: Env)
    requires InSequence(a, b, env.Keys) && Weighted(a, b, Table(inits)) && Extends(Table(inits), env)
    requires Run(Onnx(m), a.Nodes() + b.Nodes(), env) == Some(end) && Ranked(a, end) && Ranked(b, end)
    ensures RewriteAll(a.Nodes() + b.Nodes(), inits, Quantizers(a.Nodes() + b.Nodes()), 0) == Outcome(result, None)
    ensures Run(Onnx(m), result.nodes, env + Table(result.inits)) == Some(after)
    ensures forall n :: n in Results(a, b) ==> n in end && n in after && after[n] == end[n]
  {
    SequenceOf(a, b, env.Keys, a.Nodes() + b.Nodes());
    result, after := SequenceKept(m, a, b, a.Nodes() + b.Nodes(), inits, env, end);
  }

  // ---- a second reader -----------------------------------------------------------------------------

  /** A layer with another reader of the quantised value in place of the Mul. */
  function Stray(a: Layer): (n: Node) {
    Node(Other("Dequantize"), "stray", [a.q, a.scale], [a.y])
  }

  function WithStray(a: Layer): (r: seq<Node>) {
    [a.Dql(), a.Mmi(), a.ToFloat(), Stray(a)]
  }

  function SiteAt(a: Layer, table: Env): (site: Site)
    requires a.w in table && a.z in table
  {
    Site(a.Dql(), a.Mmi(), a.ToFloat(), table[a.w], table[a.z])
  }

  lemma StrayRuns(a: Layer, defined: set<Name>)
    requires a.Apart() && a.Written() !! defined
    ensures Runnable(Stray(a), defined + {a.q, a.scale, a.zeroPoint} + {a.product} + {a.out})
  {
  }

  lemma StraySorted(a: Layer, defined: set<Name>)
    requires a.Apart() && a.Written() !! defined && a.x in defined && a.w in defined && a.z in defined
    ensures Sorted(WithStray(a), defined) && AllOutputs(WithStray(a)) == a.Written()
  {
    LayerOutputs(a);
    LayerRuns(a, defined);
    StrayRuns(a, defined);
    var quantized := defined + {a.q, a.scale, a.zeroPoint};
    SortedPair(a.ToFloat(), Stray(a), quantized + {a.product});
    SortedCons(a.Mmi(), [a.ToFloat(), Stray(a)], quantized);
    SortedCons(a.Dql(), [a.Mmi()] + [a.ToFloat(), Stray(a)], defined);
    assert [a.Dql()] + ([a.Mmi()] + [a.ToFloat(), Stray(a)]) == WithStray(a);
  }

  lemma StrayFound(a: Layer, table: Env)
    requires a.w in table && a.z in table && Centrable(table[a.w], table[a.z])
    ensures SiteOf(WithStray(a), table, a.Dql()) == Ok(SiteAt(a, table)) && SiteAt(a, table).Shaped()
  {
    var nodes := WithStray(a);
    assert FindProduct(nodes[1..], a.q) == Some(a.Mmi());
    assert FindCast(nodes[1..][1..], a.product) == Some(a.ToFloat());
    assert FindCast(nodes[1..], a.product) == Some(a.ToFloat());
  }

  lemma StrayNames(a: Layer, given: set<Name>)
    requires a.Apart() && a.Written() !! given && {a.x, a.w, a.z} <= given && forall n :: n in given ==> n.Given?
    ensures AllOriginal(WithStray(a)) && AllFresh(given + AllOutputs(WithStray(a)), WithStray(a), 0)
  {
    StraySorted(a, given);
    GivenFresh(given + a.Written(), WithStray(a));
  }

  lemma StrayReads(a: Layer, site: Site)
    requires site.dql == a.Dql() && site.product == a.Mmi() && site.cast == a.ToFloat() && site.Shaped()
    ensures !NoStrayReader(site, [a.Mmi(), a.ToFloat(), Stray(a)])
  {
    var rest := [a.Mmi(), a.ToFloat(), Stray(a)];
    assert rest[2] == Stray(a) && Stray(a) in rest && Stray(a) != site.product && Stray(a) != site.cast;
    assert Stray(a).inputs[0] == site.dql.outputs[0] && ReadsAny(Stray(a), site.Gone());
  }

  lemma StrayHolds(a: Layer, given: set<Name>, site: Site, cut: Cut)
    requires site.dql == a.Dql() && site.product == a.Mmi() && site.cast == a.ToFloat() && site.Shaped()
    requires Sorted(WithStray(a), given) && AllOriginal(WithStray(a))
    requires AllFresh(given + AllOutputs(WithStray(a)), WithStray(a), 0)
    requires cut == Cut([], [a.Mmi(), a.ToFloat(), Stray(a)], given)
    ensures cut.Before(site) == WithStray(a) && cut.Holds(site, 0)
  {
    assert cut.Before(site) == WithStray(a) == cut.Todo(site);
    assert WithStray(a)[1] == site.product && WithStray(a)[2] == site.cast;
  }

  /** With a second reader of the quantised value the list is sorted before the rewrite and not after it. */
  lemma SecondReaderBreaks(a: Layer, inits: seq<Initializer>, given: set<Name>)
    requires a.Apart() && a.Written() !! given && {a.x, a.w, a.z} <= given && (forall n :: n in given ==> n.Given?)
    requires Table(inits).Keys <= given && a.w in Table(inits) && a.z in Table(inits)
    requires Centrable(Table(inits)[a.w], Table(inits)[a.z])
    ensures Sorted(WithStray(a), given)
    ensures var r := RewriteOne(WithStray(a), inits, a.Dql(), 0);
            r.failure.None? && !Sorted(r.model.nodes, given + Table(r.model.inits).Keys)
  {
    var site, cut := SiteAt(a, Table(inits)), Cut([], [a.Mmi(), a.ToFloat(), Stray(a)], given);
    StraySorted(a, given);
    StrayFound(a, Table(inits));
    StrayNames(a, given);
    StrayHolds(a, given, site, cut);
    StrayReads(a, site);
    RewriteSortedExactly(cut, site, 0, inits);
  }

  const SAMPLE: Layer := Layer(Given("x"), Given("w"), Given("z"), Given("q"), Given("s"), Given("0"), Given("p"),
                               Given("o"), Given("y"))

  const WEIGHTS: seq<Initializer> := [
    Initializer(Given("w"), Tensor([1, 1], [3.0])), Initializer(Given("z"), Tensor([], [1.0]))]

  /** One such list. */
  lemma SecondReaderExample()
    ensures var given := {Given("x"), Given("w"), Given("z")};
            var r := RewriteOne(WithStray(SAMPLE), WEIGHTS, SAMPLE.Dql(), 0);
            && Sorted(WithStray(SAMPLE), given) && r.failure.None?
            && !Sorted(r.model.nodes, given + Table(r.model.inits).Keys)
  {
    var given := {Given("x"), Given("w"), Given("z")};
    assert Table(WEIGHTS[..1]) == map[Given("w") := WEIGHTS[0].value] by {
      assert Table(WEIGHTS[..1][..0]) == map[];
    }
    assert Table(WEIGHTS) == map[Given("w") := WEIGHTS[0].value, Given("z") := WEIGHTS[1].value];
    assert Centrable(WEIGHTS[0].value, WEIGHTS[1].value);
    SecondReaderBreaks(SAMPLE, WEIGHTS, given);
  }
}
