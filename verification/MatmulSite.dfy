/** One dynamic int8 product: its nodes, the chain that replaces it, and what the two compute. */
module MatmulSite {
  import opened Common
  import opened Quantization
  import opened OnnxGraph
  import opened OnnxOrder
  import opened OnnxRun
  import opened QuantizeChain
  import opened Tensors

  /** The three nodes of a dynamic product and the two initializers it reads. */
  datatype Site = Site(dql: Node, product: Node, cast: Node, weights: Tensor, zero: Tensor) {
    predicate Shaped() {
      && dql.op.DynamicQuantizeLinear? && |dql.inputs| == 1 && |dql.outputs| == 3
      && product.op.MatMulInteger? && |product.inputs| == 4 && |product.outputs| == 1
      && cast.op == Cast(true) && |cast.inputs| == 1 && |cast.outputs| == 1
      && product.inputs[0] == dql.outputs[0] && product.inputs[2] == dql.outputs[2]
      && cast.inputs[0] == product.outputs[0]
      && Centrable(weights, zero)
    }

    function X(): (n: Name) requires Shaped() {
      dql.inputs[0]
    }

    function ScaleName(): (n: Name) requires Shaped() {
      dql.outputs[1]
    }

    function Out(): (n: Name) requires Shaped() {
      cast.outputs[0]
    }

    /** The names that nothing writes any more. */
    function Gone(): (s: set<Name>) requires Shaped() {
      {dql.outputs[0], dql.outputs[2], product.outputs[0]}
    }

    function Replacement(k: nat): (r: seq<Node>) requires Shaped() {
      Chain(k, X(), ScaleName(), dql.outputs[2], Out())
    }

    function Written(k: nat): (s: set<Name>) requires Shaped() {
      ChainNames(k, ScaleName(), dql.outputs[2], Out())
    }
  }

  /** The two initializers that rewrite `k` adds. */
  function Constants(k: nat, weights: Tensor, zero: Tensor): (e: Env)
    requires Centrable(weights, zero)
  {
    map[Prefixed(k, WeightsCentred) := Centred(weights, zero), Prefixed(k, TwoFiftyFive) := Unit(1, 255.0)]
  }

  function ConstantNames(k: nat): (s: set<Name>) {
    {Prefixed(k, WeightsCentred), Prefixed(k, TwoFiftyFive)}
  }

  lemma ConstantKeys(k: nat, weights: Tensor, zero: Tensor)
    requires Centrable(weights, zero)
    ensures Constants(k, weights, zero).Keys == ConstantNames(k)
  {
  }

  /** The value of the product in the original run. */
  ghost function ProductOf(m: Meaning, x: Tensor, weights: Tensor, zero: Tensor): (t: Tensor)
    requires SomeNonzero(x.data) && Centrable(weights, zero)
  {
    m.matmul(Shifted(Tensor(x.dims, QuantizedAll(x.data)), ZeroPoint(x.data) as real), Centred(weights, zero))
  }

  lemma QuantizedOutputs(m: Meaning, dql: Node, e: Env)
    requires dql.op.DynamicQuantizeLinear? && |dql.inputs| == 1 && |dql.outputs| == 3
    requires Runnable(dql, e.Keys) && SomeNonzero(e[dql.inputs[0]].data)
    ensures var x, f := e[dql.inputs[0]], After(Onnx(m), dql, e);
            f == e[dql.outputs[0] := Tensor(x.dims, QuantizedAll(x.data))]
                  [dql.outputs[1] := Tensor([], [Scale(x.data)])]
                  [dql.outputs[2] := Tensor([], [ZeroPoint(x.data) as real])]
  {
    assert Args(dql, e) == [e[dql.inputs[0]]];
    AfterAt(Onnx(m), dql, e, 0);
    AfterAt(Onnx(m), dql, e, 1);
    AfterAt(Onnx(m), dql, e, 2);
    assert Outputs(dql) == {dql.outputs[0], dql.outputs[1], dql.outputs[2]};
  }

  lemma ProductApplied(m: Meaning, x: Tensor, weights: Tensor, zero: Tensor)
    requires SomeNonzero(x.data) && Centrable(weights, zero)
    ensures var q, z := Tensor(x.dims, QuantizedAll(x.data)), Tensor([], [ZeroPoint(x.data) as real]);
            Onnx(m)(MatMulInteger, [q, weights, z, zero], 0)
            == ProductOf(m, x, weights, zero)
  {
  }

  lemma MatMulApplied(m: Meaning, a: Tensor, b: Tensor)
    ensures Onnx(m)(MatMul, [a, b], 0) == m.matmul(a, b)
    ensures Onnx(m)(Cast(true), [a], 0) == a
  {
  }

  /** What a made-up name is built on. */
  function Root(n: Name): (r: Name) {
    match n
    case Pos(of) => Root(of)
    case Gap(of) => Root(of)
    case _ => n
  }

  predicate MadeBy(n: Name, k: nat, zeroPoint: Name) {
    var root := Root(n);
    (root.Prefixed? && root.rewrite == k) || root == Float(zeroPoint)
  }

  lemma ClampRoots(dst: Name)
    ensures Root(Pos(dst)) == Root(dst) && Root(Gap(dst)) == Root(dst) && Root(Pos(Gap(dst))) == Root(dst)
  {
  }

  /** A name of the chain is made up for it, is none of its constants, or is one of the two it takes over. */
  predicate ChainName(n: Name, k: nat, zeroPoint: Name, scale: Name, out: Name) {
    || (MadeBy(n, k, zeroPoint) && n != Prefixed(k, WeightsCentred) && n != Prefixed(k, TwoFiftyFive))
    || n == scale || n == out
  }

  predicate AllChainNames(s: set<Name>, k: nat, zeroPoint: Name, scale: Name, out: Name) {
    forall n :: n in s ==> ChainName(n, k, zeroPoint, scale, out)
  }

  lemma ScaleNamesMade(k: nat, zeroPoint: Name, scale: Name, out: Name)
    ensures AllChainNames(ScaleChainNames(k, scale), k, zeroPoint, scale, out)
  {
  }

  lemma ZeroPointNamesMade(k: nat, zeroPoint: Name, scale: Name, out: Name)
    ensures AllChainNames(ZeroPointChainNames(k, Float(zeroPoint)), k, zeroPoint, scale, out)
  {
    ClampRoots(Float(zeroPoint));
  }

  lemma QuantizedNamesMade(k: nat, zeroPoint: Name, scale: Name, out: Name)
    ensures AllChainNames(QuantizedChainNames(k), k, zeroPoint, scale, out)
  {
    ClampRoots(Prefixed(k, Q));
  }

  lemma ProductNamesMade(k: nat, zeroPoint: Name, scale: Name, out: Name)
    ensures AllChainNames(ProductNames(k, out), k, zeroPoint, scale, out)
  {
  }

  lemma BothMade(a: set<Name>, b: set<Name>, k: nat, zeroPoint: Name, scale: Name, out: Name)
    requires AllChainNames(a, k, zeroPoint, scale, out) && AllChainNames(b, k, zeroPoint, scale, out)
    ensures AllChainNames(a + b, k, zeroPoint, scale, out)
  {
  }

  lemma WrittenMade(k: nat, scale: Name, zeroPoint: Name, out: Name)
    ensures AllChainNames(ChainNames(k, scale, zeroPoint, out), k, zeroPoint, scale, out)
  {
    var zero := Float(zeroPoint);
    ScaleNamesMade(k, zeroPoint, scale, out);
    ZeroPointNamesMade(k, zeroPoint, scale, out);
    QuantizedNamesMade(k, zeroPoint, scale, out);
    ProductNamesMade(k, zeroPoint, scale, out);
    BothMade(ScaleChainNames(k, scale), ZeroPointChainNames(k, zero), k, zeroPoint, scale, out);
    BothMade(ScaledNames(k, scale, zero), QuantizedChainNames(k), k, zeroPoint, scale, out);
    BothMade(FloatNames(k, scale, zero), ProductNames(k, out), k, zeroPoint, scale, out);
  }

  /** The site has its inputs at this point of the run. */
  ghost predicate AtSite(site: Site, e: Env)
    requires site.Shaped()
  {
    && Runnable(site.dql, e.Keys)
    && SomeNonzero(e[site.X()].data) && |e[site.X()].dims| >= 1
    && site.product.inputs[1] in e && e[site.product.inputs[1]] == site.weights
    && site.product.inputs[3] in e && e[site.product.inputs[3]] == site.zero
    && Original(site.ScaleName()) && Original(site.Out()) && site.ScaleName() != site.Out()
  }

  /** None of the names that the rewrite brings in has a value yet. */
  ghost predicate Unused(site: Site, k: nat, e: Env)
    requires site.Shaped()
  {
    site.Written(k) !! e.Keys && Constants(k, site.weights, site.zero).Keys !! e.Keys
  }

  lemma MadeBesideConstants(made: set<Name>, k: nat, zeroPoint: Name, scale: Name, out: Name)
    requires AllChainNames(made, k, zeroPoint, scale, out) && Original(scale) && Original(out)
    ensures made !! ConstantNames(k)
  {
    forall n | n in made ensures n !in ConstantNames(k) {
      assert ChainName(n, k, zeroPoint, scale, out);
    }
  }

  lemma ApartFromSum(made: set<Name>, e: Env, extra: Env)
    requires made !! e.Keys && made !! extra.Keys
    ensures made !! (e + extra).Keys
  {
    assert (e + extra).Keys == e.Keys + extra.Keys;
    ApartFromBoth(e.Keys, extra.Keys, made);
  }

  lemma WrittenBeside(k: nat, scale: Name, zeroPoint: Name, out: Name)
    requires Original(scale) && Original(out)
    ensures ChainNames(k, scale, zeroPoint, out) !! ConstantNames(k)
  {
    var made := ChainNames(k, scale, zeroPoint, out);
    assert AllChainNames(made, k, zeroPoint, scale, out) by {
      WrittenMade(k, scale, zeroPoint, out);
    }
    MadeBesideConstants(made, k, zeroPoint, scale, out);
  }

  lemma WrittenUnused(site: Site, k: nat, e: Env)
    requires site.Shaped() && Original(site.ScaleName()) && Original(site.Out()) && Unused(site, k, e)
    ensures site.Written(k) !! (e + Constants(k, site.weights, site.zero)).Keys
  {
    ConstantKeys(k, site.weights, site.zero);
    WrittenBeside(k, site.ScaleName(), site.dql.outputs[2], site.Out());
    ApartFromSum(site.Written(k), e, Constants(k, site.weights, site.zero));
  }

  lemma ReplacementRun(m: Meaning, site: Site, k: nat, e: Env) returns (f: Env)
    requires site.Shaped() && AtSite(site, e) && Unused(site, k, e)
    ensures var x, start := e[site.X()], e + Constants(k, site.weights, site.zero);
            && Run(Onnx(m), site.Replacement(k), start) == Some(f) && Extends(start, f)
            && f.Keys == start.Keys + site.Written(k)
            && site.ScaleName() in f && f[site.ScaleName()] == Unit(|x.dims|, Scale(x.data))
            && site.Out() in f && f[site.Out()] == ProductOf(m, x, site.weights, site.zero)
  {
    var mc, x := MachineOf(Onnx(m)), e[site.X()];
    var start := e + Constants(k, site.weights, site.zero);
    OnnxFloats(m);
    RunWorks(Onnx(m));
    WrittenUnused(site, k, e);
    f := ChainRun(mc, k, site.X(), site.ScaleName(), site.dql.outputs[2], site.Out(), start);
    MatMulApplied(m, Shifted(Tensor(x.dims, QuantizedAll(x.data)), ZeroPoint(x.data) as real),
                  Centred(site.weights, site.zero));
  }

  lemma ScalePadded(rank: nat, s: real)
    ensures Padded(Tensor([], [s]), Unit(rank, s))
  {
  }

  lemma ProductArgs(dql: Node, product: Node, e: Env, e1: Env, q: Tensor, s: Tensor, z: Tensor)
    requires |dql.outputs| == 3 && Distinct(dql.outputs) && (forall i :: 0 <= i < 3 ==> dql.outputs[i] !in e)
    requires e1 == e[dql.outputs[0] := q][dql.outputs[1] := s][dql.outputs[2] := z]
    requires |product.inputs| == 4 && product.inputs[0] == dql.outputs[0] && product.inputs[2] == dql.outputs[2]
    requires product.inputs[1] in e && product.inputs[3] in e
    ensures Reads(product, e1) && Args(product, e1) == [q, e[product.inputs[1]], z, e[product.inputs[3]]]
  {
    assert dql.outputs[0] != dql.outputs[1] && dql.outputs[0] != dql.outputs[2];
  }

  lemma ProductReads(m: Meaning, site: Site, e: Env)
    requires site.Shaped() && AtSite(site, e)
    ensures var e1 := After(Onnx(m), site.dql, e);
            && Reads(site.product, e1)
            && Onnx(m)(site.product.op, Args(site.product, e1), 0) == ProductOf(m, e[site.X()], site.weights, site.zero)
  {
    var x := e[site.X()];
    QuantizedOutputs(m, site.dql, e);
    ProductArgs(site.dql, site.product, e, After(Onnx(m), site.dql, e),
                Tensor(x.dims, QuantizedAll(x.data)), Tensor([], [Scale(x.data)]),
                Tensor([], [ZeroPoint(x.data) as real]));
    ProductApplied(m, x, site.weights, site.zero);
  }

  // ---- the chain by its names ----------------------------------------------------------------------

  /** Any values will do to see that the chain is sorted. */
  function Sample(defined: set<Name>, k: nat): (e: Env) {
    map n | n in defined :: if n == Prefixed(k, TwoFiftyFive) then Unit(1, 255.0) else Tensor([1], [1.0])
  }

  const NOTHING: Meaning := Meaning((args, s, d, p) => Tensor([], []), (a, b) => Tensor([], []),
                                    (op, args, i) => Tensor([], []))

  lemma SampleReady(defined: set<Name>, k: nat, x: Name)
    requires x in defined && x != Prefixed(k, TwoFiftyFive)
    requires Prefixed(k, TwoFiftyFive) in defined && Prefixed(k, WeightsCentred) in defined
    ensures Ready(Sample(defined, k), k, x)
  {
    assert Sample(defined, k)[x].data[0] != 0.0;
  }

  /** Where its names are new the chain is sorted, and it defines exactly them. */
  lemma ChainSorted(k: nat, x: Name, scale: Name, zeroPoint: Name, out: Name, defined: set<Name>)
    requires x in defined && x != Prefixed(k, TwoFiftyFive)
    requires Prefixed(k, TwoFiftyFive) in defined && Prefixed(k, WeightsCentred) in defined
    requires Original(scale) && Original(out) && scale != out && ChainNames(k, scale, zeroPoint, out) !! defined
    ensures Sorted(Chain(k, x, scale, zeroPoint, out), defined)
    ensures AllOutputs(Chain(k, x, scale, zeroPoint, out)) == ChainNames(k, scale, zeroPoint, out)
  {
    var env, sem, chain := Sample(defined, k), Onnx(NOTHING), Chain(k, x, scale, zeroPoint, out);
    SampleReady(defined, k, x);
    OnnxFloats(NOTHING);
    RunWorks(sem);
    assert env.Keys == defined;
    var end := ChainRun(MachineOf(sem), k, x, scale, zeroPoint, out, env);
    RunsIffSorted(sem, chain, env);
    RunDefines(sem, chain, env);
    OutputsNotDefined(chain, defined);
    SameBeside(defined, AllOutputs(chain), ChainNames(k, scale, zeroPoint, out));
  }

  lemma SameBeside(d: set<Name>, a: set<Name>, b: set<Name>)
    requires d + a == d + b && a !! d && b !! d
    ensures a == b
  {
    assert forall n :: n in a ==> n in d + b;
    assert forall n :: n in b ==> n in d + a;
  }
}
