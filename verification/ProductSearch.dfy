/** Which nodes the third pass looks up for a quantizer, what it lacks when it fails, and what it leaves. */
module ProductSearch {
  import opened Common
  import opened OnnxGraph
  import opened OnnxRun
  import opened QuantizeChain
  import opened MatmulSite
  import opened DynamicMatmuls
  import opened Tensors

  // ---- the first reader

  predicate ReadsFirst(n: Node, name: Name) {
    n.inputs != [] && n.inputs[0] == name
  }

  predicate MultipliesIt(n: Node, name: Name) {
    n.op == MatMulInteger && ReadsFirst(n, name)
  }

  predicate CastsIt(n: Node, name: Name) {
    n.op.Cast? && ReadsFirst(n, name)
  }

  datatype Role = Multiplies | Casts

  predicate Plays(role: Role, n: Node, name: Name) {
    if role == Multiplies then MultipliesIt(n, name) else CastsIt(n, name)
  }

  predicate FirstAt(nodes: seq<Node>, role: Role, name: Name, i: nat) {
    i < |nodes| && Plays(role, nodes[i], name) && forall j :: 0 <= j < i ==> !Plays(role, nodes[j], name)
  }

  /** The first node of the list that multiplies, or casts, the value of this name. */
  ghost predicate First(nodes: seq<Node>, role: Role, name: Name, n: Node) {
    exists i: nat :: FirstAt(nodes, role, name, i) && nodes[i] == n
  }

  ghost predicate NoOne(nodes: seq<Node>, role: Role, name: Name) {
    forall i :: 0 <= i < |nodes| ==> !Plays(role, nodes[i], name)
  }

  lemma LaterAt(nodes: seq<Node>, role: Role, name: Name, i: nat)
    requires nodes != [] && !Plays(role, nodes[0], name)
    ensures FirstAt(nodes, role, name, i + 1) <==> FirstAt(nodes[1..], role, name, i)
  {
    var rest := nodes[1..];
    if FirstAt(nodes, role, name, i + 1) {
      forall j | 0 <= j < i ensures !Plays(role, rest[j], name) {
        assert rest[j] == nodes[j + 1];
      }
    }
    if FirstAt(rest, role, name, i) {
      forall j | 0 < j < i + 1 ensures !Plays(role, nodes[j], name) {
        assert nodes[j] == rest[j - 1];
      }
    }
  }

  lemma Later(nodes: seq<Node>, role: Role, name: Name, n: Node)
    requires nodes != [] && !Plays(role, nodes[0], name)
    ensures First(nodes, role, name, n) <==> First(nodes[1..], role, name, n)
  {
    if i: nat :| FirstAt(nodes, role, name, i) && nodes[i] == n {
      LaterAt(nodes, role, name, i - 1);
      assert FirstAt(nodes[1..], role, name, i - 1);
    }
    if i: nat :| FirstAt(nodes[1..], role, name, i) && nodes[1..][i] == n {
      LaterAt(nodes, role, name, i);
      assert FirstAt(nodes, role, name, i + 1);
    }
  }

  lemma NoOneLater(nodes: seq<Node>, role: Role, name: Name)
    requires nodes != [] && !Plays(role, nodes[0], name)
    ensures NoOne(nodes, role, name) <==> NoOne(nodes[1..], role, name)
  {
    assert nodes == [nodes[0]] + nodes[1..];
  }

  lemma Here(nodes: seq<Node>, role: Role, name: Name, n: Node)
    requires nodes != [] && Plays(role, nodes[0], name)
    ensures First(nodes, role, name, n) <==> n == nodes[0]
  {
    assert FirstAt(nodes, role, name, 0);
  }

  lemma {:induction false} ProductExactly(nodes: seq<Node>, name: Name, n: Node)
    ensures FindProduct(nodes, name) == Some(n) <==> First(nodes, Multiplies, name, n)
    ensures FindProduct(nodes, name) == None <==> NoOne(nodes, Multiplies, name)
  {
    if nodes != [] {
      if Plays(Multiplies, nodes[0], name) {
        Here(nodes, Multiplies, name, n);
      } else {
        ProductExactly(nodes[1..], name, n);
        Later(nodes, Multiplies, name, n);
        NoOneLater(nodes, Multiplies, name);
      }
    }
  }

  lemma {:induction false} CastExactly(nodes: seq<Node>, name: Name, n: Node)
    ensures FindCast(nodes, name) == Some(n) <==> First(nodes, Casts, name, n)
    ensures FindCast(nodes, name) == None <==> NoOne(nodes, Casts, name)
  {
    if nodes != [] {
      if Plays(Casts, nodes[0], name) {
        Here(nodes, Casts, name, n);
      } else {
        CastExactly(nodes[1..], name, n);
        Later(nodes, Casts, name, n);
        NoOneLater(nodes, Casts, name);
      }
    }
  }

  // ---- the site

  /** The weights and their zero point are initializers that can be subtracted. */
  ghost predicate HasWeights(product: Node, table: Env, weights: Tensor, zero: Tensor) {
    && |product.inputs| >= 4
    && product.inputs[1] in table && table[product.inputs[1]] == weights
    && product.inputs[3] in table && table[product.inputs[3]] == zero && Centrable(weights, zero)
  }

  /** The quantizer, the first product of its value, the first cast of that, and the weights. */
  ghost predicate IsSite(nodes: seq<Node>, table: Env, dql: Node, site: Site) {
    && site.dql == dql && |dql.inputs| > 0 && |dql.outputs| == 3
    && First(nodes, Multiplies, dql.outputs[0], site.product) && |site.product.outputs| > 0
    && First(nodes, Casts, site.product.outputs[0], site.cast)
    && HasWeights(site.product, table, site.weights, site.zero)
  }

  ghost predicate WeightsFault(product: Node, table: Env, e: MatmulError) {
    match e
    case BadArity => |product.inputs| < 2 || (|product.inputs| < 4 && product.inputs[1] in table)
    case NoWeights =>
      && |product.inputs| >= 2
      && (product.inputs[1] !in table || (|product.inputs| >= 4 && product.inputs[3] !in table))
    case NoBroadcast =>
      && |product.inputs| >= 4 && product.inputs[1] in table && product.inputs[3] in table
      && !Centrable(table[product.inputs[1]], table[product.inputs[3]])
    case _ => false
  }

  /** What is missing, in the order in which it is looked for. */
  ghost predicate SiteFault(nodes: seq<Node>, table: Env, dql: Node, e: MatmulError) {
    if dql.outputs == [] then e == BadArity
    else if NoOne(nodes, Multiplies, dql.outputs[0]) then e == NoMatMulInteger
    else
      exists product ::
        First(nodes, Multiplies, dql.outputs[0], product) && ProductFault(nodes, table, dql, product, e)
  }

  ghost predicate ProductFault(nodes: seq<Node>, table: Env, dql: Node, product: Node, e: MatmulError) {
    if product.outputs == [] then e == BadArity
    else if NoOne(nodes, Casts, product.outputs[0]) then e == NoCast
    else if dql.inputs == [] || |dql.outputs| != 3 then e == BadArity
    else WeightsFault(product, table, e)
  }

  lemma WeightsExactly(product: Node, table: Env, weights: Tensor, zero: Tensor, e: MatmulError)
    ensures WeightsOf(product, table) == Ok((weights, zero)) <==> HasWeights(product, table, weights, zero)
    ensures WeightsOf(product, table) == Err(e) <==> WeightsFault(product, table, e)
  {
  }

  lemma FirstProductUnique(nodes: seq<Node>, name: Name, a: Node, b: Node)
    requires First(nodes, Multiplies, name, a) && First(nodes, Multiplies, name, b)
    ensures a == b
  {
    ProductExactly(nodes, name, a);
    ProductExactly(nodes, name, b);
  }

  /** A site is found exactly where there is one. */
  lemma SiteExactly(nodes: seq<Node>, table: Env, dql: Node, site: Site)
    ensures SiteOf(nodes, table, dql) == Ok(site) <==> IsSite(nodes, table, dql, site)
  {
    if dql.outputs != [] {
      ProductExactly(nodes, dql.outputs[0], site.product);
      if site.product.outputs != [] {
        CastExactly(nodes, site.product.outputs[0], site.cast);
      }
      WeightsExactly(site.product, table, site.weights, site.zero, NoCast);
    }
  }

  /** And otherwise the first thing missing is reported. */
  lemma FaultExactly(nodes: seq<Node>, table: Env, dql: Node, e: MatmulError)
    ensures SiteOf(nodes, table, dql) == Err(e) <==> SiteFault(nodes, table, dql, e)
  {
    if dql.outputs != [] {
      var found := FindProduct(nodes, dql.outputs[0]);
      ProductExactly(nodes, dql.outputs[0], dql);
      if found.Some? {
        var product := found.value;
        ProductExactly(nodes, dql.outputs[0], product);
        forall other | First(nodes, Multiplies, dql.outputs[0], other) ensures other == product {
          FirstProductUnique(nodes, dql.outputs[0], product, other);
        }
        if product.outputs != [] {
          CastExactly(nodes, product.outputs[0], dql);
        }
        WeightsExactly(product, table, Zero(), Zero(), e);
        assert SiteFault(nodes, table, dql, e) <==> ProductFault(nodes, table, dql, product, e);
      }
    }
  }

  ghost function Zero(): (t: Tensor) {
    Tensor([], [])
  }

  // ---- what is left

  predicate IsQuantizer(n: Node) {
    n.op == DynamicQuantizeLinear
  }

  /** How often each quantizer stands in the list. */
  function QuantizersIn(nodes: seq<Node>): (m: multiset<Node>) {
    if nodes == [] then multiset{}
    else QuantizersIn(nodes[1..]) + if IsQuantizer(nodes[0]) then multiset{nodes[0]} else multiset{}
  }

  lemma {:induction false} QuantizersListed(nodes: seq<Node>)
    ensures multiset(Quantizers(nodes)) == QuantizersIn(nodes)
  {
    if nodes != [] {
      QuantizersListed(nodes[1..]);
      if IsQuantizer(nodes[0]) {
        assert Quantizers(nodes) == [nodes[0]] + Quantizers(nodes[1..]);
      }
    }
  }

  lemma {:induction false} NoQuantizersIn(nodes: seq<Node>)
    ensures QuantizersIn(nodes) == multiset{} <==> forall i :: 0 <= i < |nodes| ==> !IsQuantizer(nodes[i])
  {
    if nodes != [] {
      NoQuantizersIn(nodes[1..]);
      assert forall i :: 0 < i < |nodes| ==> nodes[i] == nodes[1..][i - 1];
      assert IsQuantizer(nodes[0]) ==> nodes[0] in QuantizersIn(nodes);
    }
  }

  lemma Swapped(x: multiset<Node>, y: multiset<Node>, z: multiset<Node>)
    ensures x + y + z == x + z + y
  {
  }

  lemma {:induction false} QuantizersJoin(a: seq<Node>, b: seq<Node>)
    ensures QuantizersIn(a + b) == QuantizersIn(a) + QuantizersIn(b)
  {
    if a == [] {
      assert a + b == b;
    } else {
      QuantizersJoin(a[1..], b);
      assert (a + b)[1..] == a[1..] + b && (a + b)[0] == a[0];
      var here := if IsQuantizer(a[0]) then multiset{a[0]} else multiset{};
      assert QuantizersIn(a + b) == QuantizersIn(a[1..] + b) + here && QuantizersIn(a) == QuantizersIn(a[1..]) + here;
      Swapped(QuantizersIn(a[1..]), QuantizersIn(b), here);
    }
  }

  lemma {:induction false} QuantizerRemoved(nodes: seq<Node>, n: Node)
    requires n in nodes || !IsQuantizer(n)
    ensures QuantizersIn(Removed(nodes, n)) == QuantizersIn(nodes) - if IsQuantizer(n) then multiset{n} else multiset{}
  {
    if nodes != [] && nodes[0] != n {
      QuantizerRemoved(nodes[1..], n);
      QuantizerCounted(nodes[1..], n);
      var rest := Removed(nodes[1..], n);
      assert ([nodes[0]] + rest)[1..] == rest;
    }
  }

  lemma {:induction false} QuantizerCounted(nodes: seq<Node>, n: Node)
    ensures IsQuantizer(n) && n in nodes ==> QuantizersIn(nodes)[n] > 0
    ensures !IsQuantizer(n) ==> QuantizersIn(nodes)[n] == 0
  {
    if nodes != [] {
      QuantizerCounted(nodes[1..], n);
      assert n in nodes ==> n == nodes[0] || n in nodes[1..];
    }
  }

  lemma BetweenQuantizers(front: seq<Node>, chain: seq<Node>, back: seq<Node>)
    requires QuantizersIn(chain) == multiset{}
    ensures QuantizersIn(front + chain + back) == QuantizersIn(front + back)
  {
    QuantizersJoin(front + chain, back);
    QuantizersJoin(front, chain);
    QuantizersJoin(front, back);
  }

  lemma SplicedQuantizers(nodes: seq<Node>, at: nat, chain: seq<Node>)
    requires QuantizersIn(chain) == multiset{}
    ensures QuantizersIn(Spliced(nodes, at, chain)) == QuantizersIn(nodes)
  {
    var i := if at <= |nodes| then at else |nodes|;
    assert nodes == nodes[..i] + nodes[i..];
    BetweenQuantizers(nodes[..i], chain, nodes[i..]);
  }

  lemma ChainHasNone(k: nat, x: Name, scale: Name, zeroPoint: Name, out: Name)
    ensures QuantizersIn(Chain(k, x, scale, zeroPoint, out)) == multiset{}
  {
    ChainIsChainNodes(k, x, scale, zeroPoint, out);
    NoQuantizersIn(Chain(k, x, scale, zeroPoint, out));
  }

  /** A rewrite that goes through takes one quantizer out of the list and puts none in. */
  lemma OneGone(nodes: seq<Node>, inits: seq<Initializer>, dql: Node, k: nat)
    requires IsQuantizer(dql) && RewriteOne(nodes, inits, dql, k).failure.None?
    ensures QuantizersIn(RewriteOne(nodes, inits, dql, k).model.nodes) == QuantizersIn(nodes) - multiset{dql}
  {
    var site := SiteOf(nodes, Table(inits), dql).value;
    ProductFound(nodes, dql.outputs[0]);
    CastFound(nodes, site.product.outputs[0]);
    var one := Removed(nodes, dql);
    var two := Removed(one, site.product);
    QuantizerRemoved(nodes, dql);
    QuantizerRemoved(one, site.product);
    QuantizerRemoved(two, site.cast);
    ChainHasNone(k, dql.inputs[0], dql.outputs[1], dql.outputs[2], site.cast.outputs[0]);
    SplicedQuantizers(Removed(two, site.cast), IndexOf(nodes, dql),
                      Chain(k, dql.inputs[0], dql.outputs[1], dql.outputs[2], site.cast.outputs[0]));
  }

  lemma RestListed(nodes: seq<Node>, dqls: seq<Node>)
    requires dqls != [] && multiset(dqls) == QuantizersIn(nodes)
    ensures IsQuantizer(dqls[0]) && multiset(dqls[1..]) == QuantizersIn(nodes) - multiset{dqls[0]}
  {
    assert dqls == [dqls[0]] + dqls[1..];
    assert multiset(dqls)[dqls[0]] > 0;
    QuantizerCounted(nodes, dqls[0]);
  }

  lemma {:induction false} AllGone(nodes: seq<Node>, inits: seq<Initializer>, dqls: seq<Node>, k: nat)
    requires multiset(dqls) == QuantizersIn(nodes) && RewriteAll(nodes, inits, dqls, k).failure.None?
    ensures QuantizersIn(RewriteAll(nodes, inits, dqls, k).model.nodes) == multiset{}
    decreases |dqls|
  {
    if dqls != [] {
      var one := RewriteOne(nodes, inits, dqls[0], k);
      RestListed(nodes, dqls);
      OneGone(nodes, inits, dqls[0], k);
      AllGone(one.model.nodes, one.model.inits, dqls[1..], k + 1);
    }
  }

  /** A pass that goes through leaves no DynamicQuantizeLinear, whatever the graph. */
  lemma NoneLeft(nodes: seq<Node>, inits: seq<Initializer>, n: Node)
    requires RewriteAll(nodes, inits, Quantizers(nodes), 0).failure.None?
    ensures n in RewriteAll(nodes, inits, Quantizers(nodes), 0).model.nodes ==> n.op != DynamicQuantizeLinear
  {
    QuantizersListed(nodes);
    AllGone(nodes, inits, Quantizers(nodes), 0);
    NoQuantizersIn(RewriteAll(nodes, inits, Quantizers(nodes), 0).model.nodes);
  }
}
