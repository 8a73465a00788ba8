/** The pass over all dynamic int8 products of a graph: what it does to the node list and the initializers. */
module DynamicMatmuls {
  import opened Common
  import opened OnnxGraph
  import opened OnnxOrder
  import opened OnnxRun
  import opened QuantizeChain
  import opened MatmulSite
  import opened Tensors

  datatype MatmulError = NoMatMulInteger | NoCast | BadArity | NoWeights | NoBroadcast | NotInGraph

  // ---- list surgery --------------------------------------------------------------------------------

  function FindProduct(nodes: seq<Node>, q: Name): (r: Option<Node>) {
    if nodes == [] then None
    else if nodes[0].op.MatMulInteger? && nodes[0].inputs != [] && nodes[0].inputs[0] == q then Some(nodes[0])
    else FindProduct(nodes[1..], q)
  }

  function FindCast(nodes: seq<Node>, p: Name): (r: Option<Node>) {
    if nodes == [] then None
    else if nodes[0].op.Cast? && nodes[0].inputs != [] && nodes[0].inputs[0] == p then Some(nodes[0])
    else FindCast(nodes[1..], p)
  }

  function IndexOf(nodes: seq<Node>, n: Node): (i: nat)
    requires n in nodes
    ensures i < |nodes| && nodes[i] == n && n !in nodes[..i]
  {
    if nodes[0] == n then 0
    else
      var i := 1 + IndexOf(nodes[1..], n);
      assert nodes[..i] == [nodes[0]] + nodes[1..][..i - 1];
      i
  }

  /** The list without the first occurrence of the node. */
  function Removed(nodes: seq<Node>, n: Node): (r: seq<Node>) {
    if nodes == [] then [] else if nodes[0] == n then nodes[1..] else [nodes[0]] + Removed(nodes[1..], n)
  }

  function Spliced(nodes: seq<Node>, at: nat, added: seq<Node>): (r: seq<Node>) {
    var i := if at <= |nodes| then at else |nodes|;
    nodes[..i] + added + nodes[i..]
  }

  // ---- one rewrite ---------------------------------------------------------------------------------

  function WeightsOf(product: Node, table: Env): (r: Result<(Tensor, Tensor), MatmulError>)
    ensures r.Ok? ==> |product.inputs| >= 4 && product.inputs[1] in table && product.inputs[3] in table
                      && r.value == (table[product.inputs[1]], table[product.inputs[3]])
                      && Centrable(r.value.0, r.value.1)
  {
    if |product.inputs| < 2 then Err(BadArity)
    else if product.inputs[1] !in table then Err(NoWeights)
    else if |product.inputs| < 4 then Err(BadArity)
    else if product.inputs[3] !in table then Err(NoWeights)
    else if !Centrable(table[product.inputs[1]], table[product.inputs[3]]) then Err(NoBroadcast)
    else Ok((table[product.inputs[1]], table[product.inputs[3]]))
  }

  /** The first product that reads the quantised value, the first cast that reads the product, and the weights. */
  function SiteOf(nodes: seq<Node>, table: Env, dql: Node): (r: Result<Site, MatmulError>)
    ensures r.Ok? ==> dql.inputs != [] && |dql.outputs| == 3 && Centrable(r.value.weights, r.value.zero)
  {
    if dql.outputs == [] then Err(BadArity)
    else
      var product := FindProduct(nodes, dql.outputs[0]);
      if product.None? then Err(NoMatMulInteger)
      else if product.value.outputs == [] then Err(BadArity)
      else
        var cast := FindCast(nodes, product.value.outputs[0]);
        if cast.None? then Err(NoCast)
        else if dql.inputs == [] || |dql.outputs| != 3 then Err(BadArity)
        else
          var weights := WeightsOf(product.value, table);
          if weights.Err? then Err(weights.error)
          else Ok(Site(dql, product.value, cast.value, weights.value.0, weights.value.1))
  }

  datatype Rewrite = Rewrite(nodes: seq<Node>, inits: seq<Initializer>)

  /** Where a pass got to, and what stopped it. */
  datatype Outcome = Outcome(model: Rewrite, failure: Option<MatmulError>)

  function NewInitializers(k: nat, site: Site): (r: seq<Initializer>)
    requires Centrable(site.weights, site.zero)
  {
    [Initializer(Prefixed(k, WeightsCentred), Centred(site.weights, site.zero)),
     Initializer(Prefixed(k, TwoFiftyFive), Unit(1, 255.0))]
  }

  /** One rewrite; the initializers are appended before the output of the cast is looked up. */
  function RewriteOne(nodes: seq<Node>, inits: seq<Initializer>, dql: Node, k: nat): (r: Outcome) {
    var found := SiteOf(nodes, Table(inits), dql);
    if found.Err? then Outcome(Rewrite(nodes, inits), Some(found.error))
    else
      var site, more := found.value, inits + NewInitializers(k, found.value);
      if site.cast.outputs == [] then Outcome(Rewrite(nodes, more), Some(BadArity))
      else if dql !in nodes then Outcome(Rewrite(nodes, more), Some(NotInGraph))
      else
        var chain := Chain(k, dql.inputs[0], dql.outputs[1], dql.outputs[2], site.cast.outputs[0]);
        var rest := Removed(Removed(Removed(nodes, dql), site.product), site.cast);
        Outcome(Rewrite(Spliced(rest, IndexOf(nodes, dql), chain), more), None)
  }

  function Quantizers(nodes: seq<Node>): (r: seq<Node>) {
    if nodes == [] then []
    else if nodes[0].op.DynamicQuantizeLinear? then [nodes[0]] + Quantizers(nodes[1..])
    else Quantizers(nodes[1..])
  }

  /** The products of a snapshot, rewritten one after the other up to the first failure. */
  function RewriteAll(nodes: seq<Node>, inits: seq<Initializer>, dqls: seq<Node>, k: nat): (r: Outcome)
    decreases |dqls|
  {
    if dqls == [] then Outcome(Rewrite(nodes, inits), None)
    else
      var one := RewriteOne(nodes, inits, dqls[0], k);
      if one.failure.Some? then one else RewriteAll(one.model.nodes, one.model.inits, dqls[1..], k + 1)
  }

  // ---- finding the nodes ---------------------------------------------------------------------------

  predicate OnlyReader(nodes: seq<Node>, name: Name, reader: Node) {
    forall n :: n in nodes && name in n.inputs ==> n == reader
  }

  lemma {:induction false} ProductFound(nodes: seq<Node>, q: Name)
    requires FindProduct(nodes, q).Some?
    ensures var p := FindProduct(nodes, q).value;
            p in nodes && p.op.MatMulInteger? && p.inputs != [] && p.inputs[0] == q
  {
    if !(nodes[0].op.MatMulInteger? && nodes[0].inputs != [] && nodes[0].inputs[0] == q) {
      ProductFound(nodes[1..], q);
    }
  }

  lemma {:induction false} CastFound(nodes: seq<Node>, p: Name)
    requires FindCast(nodes, p).Some?
    ensures var c := FindCast(nodes, p).value; c in nodes && c.op.Cast? && c.inputs != [] && c.inputs[0] == p
  {
    if !(nodes[0].op.Cast? && nodes[0].inputs != [] && nodes[0].inputs[0] == p) {
      CastFound(nodes[1..], p);
    }
  }

  lemma {:induction false} OnlyProductFound(nodes: seq<Node>, q: Name, p: Node)
    requires p in nodes && OnlyReader(nodes, q, p) && p.op.MatMulInteger? && p.inputs != [] && p.inputs[0] == q
    ensures FindProduct(nodes, q) == Some(p)
  {
    assert nodes[0] in nodes;
    if nodes[0] != p {
      assert nodes[0].inputs != [] ==> nodes[0].inputs[0] in nodes[0].inputs;
      OnlyProductFound(nodes[1..], q, p);
    }
  }

  lemma {:induction false} OnlyCastFound(nodes: seq<Node>, o: Name, c: Node)
    requires c in nodes && OnlyReader(nodes, o, c) && c.op.Cast? && c.inputs != [] && c.inputs[0] == o
    ensures FindCast(nodes, o) == Some(c)
  {
    assert nodes[0] in nodes;
    if nodes[0] != c {
      assert nodes[0].inputs != [] ==> nodes[0].inputs[0] in nodes[0].inputs;
      OnlyCastFound(nodes[1..], o, c);
    }
  }

  // ---- leaving nodes out ---------------------------------------------------------------------------

  /** The list without two nodes. */
  function Dropped(nodes: seq<Node>, p: Node, c: Node): (r: seq<Node>) {
    if nodes == [] then []
    else if nodes[0] == p || nodes[0] == c then Dropped(nodes[1..], p, c)
    else [nodes[0]] + Dropped(nodes[1..], p, c)
  }

  lemma {:induction false} DroppedKeeps(rest: seq<Node>, p: Node, c: Node, n: Node)
    ensures n in Dropped(rest, p, c) <==> n in rest && n != p && n != c
  {
    if rest != [] {
      DroppedKeeps(rest[1..], p, c, n);
    }
  }

  lemma {:induction false} DroppedOutputs(rest: seq<Node>, p: Node, c: Node)
    ensures AllOutputs(Dropped(rest, p, c)) <= AllOutputs(rest)
  {
    if rest != [] {
      DroppedOutputs(rest[1..], p, c);
      if rest[0] != p && rest[0] != c {
        assert Dropped(rest, p, c)[1..] == Dropped(rest[1..], p, c);
      }
    }
  }

  lemma {:induction false} DroppedLength(rest: seq<Node>, p: Node, c: Node)
    ensures |Dropped(rest, p, c)| <= |rest|
  {
    if rest != [] {
      DroppedLength(rest[1..], p, c);
    }
  }

  lemma {:induction false} RemovedLater(a: seq<Node>, b: seq<Node>, n: Node)
    requires n !in a
    ensures Removed(a + b, n) == a + Removed(b, n)
  {
    if a == [] {
      assert a + b == b;
    } else {
      assert (a + b)[0] == a[0] && (a + b)[1..] == a[1..] + b;
      RemovedLater(a[1..], b, n);
    }
  }

  lemma {:induction false} RemovedAbsent(nodes: seq<Node>, n: Node)
    requires n !in nodes
    ensures Removed(nodes, n) == nodes
  {
    if nodes != [] {
      RemovedAbsent(nodes[1..], n);
    }
  }

  lemma {:induction false} RemovedIsDropped(rest: seq<Node>, defined: set<Name>, p: Node, c: Node)
    requires Sorted(rest, defined) && p != c && p.outputs != [] && c.outputs != []
    ensures Removed(Removed(rest, p), c) == Dropped(rest, p, c)
  {
    if rest != [] {
      RemovedIsDropped(rest[1..], defined + Outputs(rest[0]), p, c);
      if rest[0] == p {
        OnceOnly(rest, defined);
        RemovedAbsent(rest[1..], p);
      } else if rest[0] == c {
        OnceOnly(rest, defined);
        var r := Removed(rest[1..], p);
        assert ([c] + r)[1..] == r;
        RemovedKeeps(rest[1..], p, c);
        RemovedAbsent(r, c);
      } else {
        var r := Removed(rest[1..], p);
        assert ([rest[0]] + r)[1..] == r;
      }
    }
  }

  lemma {:induction false} RemovedKeeps(nodes: seq<Node>, n: Node, other: Node)
    ensures other in Removed(nodes, n) ==> other in nodes
  {
    if nodes != [] && nodes[0] != n {
      RemovedKeeps(nodes[1..], n, other);
    }
  }

  lemma IndexAfter(done: seq<Node>, n: Node, rest: seq<Node>)
    requires n !in done
    ensures n in done + [n] + rest && IndexOf(done + [n] + rest, n) == |done|
  {
    var all := done + [n] + rest;
    assert all[|done|] == n;
    var i := IndexOf(all, n);
    assert forall j :: 0 <= j < |done| ==> all[j] == done[j];
    forall j | |done| < j <= |all| ensures n in all[..j] {
      assert all[..j][|done|] == n;
    }
  }

  lemma SplicedAfter(done: seq<Node>, rest: seq<Node>, added: seq<Node>)
    ensures Spliced(done + rest, |done|, added) == done + added + rest
  {
    assert (done + rest)[..|done|] == done && (done + rest)[|done|..] == rest;
  }

  lemma RemovedHere(done: seq<Node>, dql: Node, rest: seq<Node>)
    requires dql !in done
    ensures Removed(done + [dql] + rest, dql) == done + rest
  {
    var tail := [dql] + rest;
    assert done + [dql] + rest == done + tail && tail[1..] == rest;
    RemovedLater(done, tail, dql);
  }

  lemma TakenOut(done: seq<Node>, rest: seq<Node>, dql: Node, p: Node, c: Node)
    requires dql !in done && p !in done && c !in done
    ensures Removed(Removed(Removed(done + [dql] + rest, dql), p), c) == done + Removed(Removed(rest, p), c)
  {
    RemovedHere(done, dql, rest);
    RemovedLater(done, rest, p);
    RemovedLater(done, Removed(rest, p), c);
  }

  /** Removing the three nodes one by one and inserting the chain where the first one stood. */
  lemma SpliceOut(done: seq<Node>, rest: seq<Node>, defined: set<Name>, dql: Node, p: Node, c: Node, chain: seq<Node>)
    requires dql !in done && p !in done && c !in done && Sorted(rest, defined)
    requires p != c && p.outputs != [] && c.outputs != []
    ensures var nodes := done + [dql] + rest;
            && dql in nodes
            && Spliced(Removed(Removed(Removed(nodes, dql), p), c), IndexOf(nodes, dql), chain)
               == done + chain + Dropped(rest, p, c)
  {
    TakenOut(done, rest, dql, p, c);
    RemovedIsDropped(rest, defined, p, c);
    IndexAfter(done, dql, rest);
    SplicedAfter(done, Dropped(rest, p, c), chain);
  }

  // ---- the chain as nodes --------------------------------------------------------------------------

  /** Nodes of a chain quantise nothing, and read made-up names, the input and the scale. */
  predicate ChainNode(n: Node, x: Name, scale: Name) {
    !n.op.DynamicQuantizeLinear? && forall i :: 0 <= i < |n.inputs| ==>
      n.inputs[i] == x || n.inputs[i] == scale || !Original(n.inputs[i])
  }

  predicate AllChainNodes(nodes: seq<Node>, x: Name, scale: Name) {
    forall i :: 0 <= i < |nodes| ==> ChainNode(nodes[i], x, scale)
  }

  lemma BothChainNodes(a: seq<Node>, b: seq<Node>, x: Name, scale: Name)
    requires AllChainNodes(a, x, scale) && AllChainNodes(b, x, scale)
    ensures AllChainNodes(a + b, x, scale)
  {
  }

  lemma ScaleChainNodes(k: nat, x: Name, scale: Name)
    ensures AllChainNodes(ScaleChain(k, x, scale), x, scale)
  {
    assert AllChainNodes(ExtremeNodes(k, x), x, scale);
    assert AllChainNodes(BoundNodes(k), x, scale);
    assert AllChainNodes(ScaleNodes(k, scale), x, scale);
    BothChainNodes(ExtremeNodes(k, x), BoundNodes(k), x, scale);
    BothChainNodes(ExtremeNodes(k, x) + BoundNodes(k), ScaleNodes(k, scale), x, scale);
  }

  lemma ClampChainNodes(k: nat, src: Name, dst: Name, x: Name, scale: Name)
    requires !Original(src) && !Original(dst)
    ensures AllChainNodes(ClampNodes(k, src, dst), x, scale)
  {
  }

  lemma ChainIsChainNodes(k: nat, x: Name, scale: Name, zeroPoint: Name, out: Name)
    ensures AllChainNodes(Chain(k, x, scale, zeroPoint, out), x, scale)
  {
    var zero := Float(zeroPoint);
    ScaleChainNodes(k, x, scale);
    assert AllChainNodes(ZeroPointNodes(k, scale), x, scale);
    ClampChainNodes(k, Prefixed(k, ZeroPointRound), zero, x, scale);
    BothChainNodes(ZeroPointNodes(k, scale), ClampNodes(k, Prefixed(k, ZeroPointRound), zero), x, scale);
    assert AllChainNodes(ShiftNodes(k, x, scale, zero), x, scale);
    ClampChainNodes(k, Prefixed(k, XShift), Prefixed(k, Q), x, scale);
    BothChainNodes(ShiftNodes(k, x, scale, zero), ClampNodes(k, Prefixed(k, XShift), Prefixed(k, Q)), x, scale);
    BothChainNodes(ScaleChain(k, x, scale), ZeroPointChain(k, scale, zero), x, scale);
    BothChainNodes(ScaleChain(k, x, scale) + ZeroPointChain(k, scale, zero), QuantizedChain(k, x, scale, zero), x,
                   scale);
    assert AllChainNodes(ProductNodes(k, zero, out), x, scale);
    BothChainNodes(FloatChain(k, x, scale, zero), ProductNodes(k, zero, out), x, scale);
  }

  // ---- what the pass asks of a graph ---------------------------------------------------------------

  /**
   * The quantised value and its zero point feed one MatMulInteger, as its first operand and that operand's zero
   * point; that product feeds one Cast to float; the weights and their zero point are initializers.
   */
  ghost predicate Convertible(nodes: seq<Node>, table: Env, dql: Node) {
    var found := SiteOf(nodes, table, dql);
    && found.Ok? && found.value.Shaped()
    && OnlyReader(nodes, dql.outputs[0], found.value.product)
    && OnlyReader(nodes, dql.outputs[2], found.value.product)
    && OnlyReader(nodes, found.value.product.outputs[0], found.value.cast)
  }

  lemma SiteFacts(nodes: seq<Node>, table: Env, dql: Node)
    requires Convertible(nodes, table, dql)
    ensures var site := SiteOf(nodes, table, dql).value;
            && site.dql == dql && site.product in nodes && site.cast in nodes && site.Shaped()
            && site.product.inputs[1] in table && table[site.product.inputs[1]] == site.weights
            && site.product.inputs[3] in table && table[site.product.inputs[3]] == site.zero
  {
    ProductFound(nodes, dql.outputs[0]);
    CastFound(nodes, FindProduct(nodes, dql.outputs[0]).value.outputs[0]);
  }
}
