/** Where nodes stand when the pass over the dynamic products is done: each chain in one piece, all else untouched. */
module MatmulPlaces {
  import opened Common
  import opened OnnxGraph
  import opened OnnxOrder
  import opened OnnxRun
  import opened Tensors
  import opened Quantization
  import opened QuantizeChain
  import opened MatmulSite
  import opened DynamicMatmuls
  import opened MatmulNames
  import opened MatmulNext

  // ---- one step of the pass ------------------------------------------------------------------------

  /** The first rewrite of a pending graph, as the pass makes it. */
  datatype Step = Step(cut: Cut, site: Site, inits: seq<Initializer>) {
    function Done(k: nat): (r: seq<Node>) requires site.Shaped() {
      cut.done + site.Replacement(k)
    }

    function Less(): (r: seq<Node>) {
      cut.Less(site)
    }

    ghost predicate Of(done: seq<Node>, todo: seq<Node>, before: seq<Initializer>, defined: set<Name>, k: nat) {
      && cut.Holds(site, k) && cut.Before(site) == done + todo && cut.defined == defined && done <= cut.done
      && inits == before + NewInitializers(k, site) && Extends(Table(before), Table(inits))
      && Pending(Done(k), Less(), Table(inits), defined + ConstantNames(k), k + 1) && |Less()| < |todo|
      && RewriteAll(done + todo, before, Quantizers(todo), k)
         == RewriteAll(Done(k) + Less(), inits, Quantizers(Less()), k + 1)
      && (forall d :: d in todo && d.op.DynamicQuantizeLinear? ==> d == site.dql || d in Less())
    }
  }

  lemma TableExtends(inits: seq<Initializer>, k: nat, site: Site, defined: set<Name>)
    requires Centrable(site.weights, site.zero) && Table(inits).Keys <= defined && ConstantNames(k) !! defined
    ensures Extends(Table(inits), Table(inits + NewInitializers(k, site)))
  {
    TableGrows(inits, k, site);
    ConstantKeys(k, site.weights, site.zero);
  }

  lemma OtherQuantizers(todo: seq<Node>, i: nat, p: Node, c: Node, d: Node)
    requires i < |todo| && NoQuantizer(todo[..i]) && d in todo && d.op.DynamicQuantizeLinear? && d != todo[i]
    requires !p.op.DynamicQuantizeLinear? && !c.op.DynamicQuantizeLinear?
    ensures d in Dropped(todo[i + 1..], p, c)
  {
    var j :| 0 <= j < |todo| && todo[j] == d;
    assert forall q :: 0 <= q < i ==> todo[..i][q] == todo[q];
    assert todo[i + 1..][j - i - 1] == d;
    DroppedKeeps(todo[i + 1..], p, c, d);
  }

  lemma FirstStep(done: seq<Node>, todo: seq<Node>, inits: seq<Initializer>, defined: set<Name>,
                  k: nat) returns (step: Step)
    requires Pending(done, todo, Table(inits), defined, k) && !NoQuantizer(todo)
    ensures step.Of(done, todo, inits, defined, k)
  {
    var i := FirstQuantizer(todo);
    var site := OneRewrite(done, todo, inits, defined, k, i);
    var cut, next := CutAt(done, todo, defined, i), inits + NewInitializers(k, site);
    step := Step(cut, site, next);
    SnapshotTail(todo, i, site.product, site.cast);
    RewriteAllStep(done + todo, inits, todo[i], Quantizers(step.Less()), k, Rewrite(step.Done(k) + step.Less(), next));
    Unmade(cut, site, k);
    TableExtends(inits, k, site, defined);
    forall d | d in todo && d.op.DynamicQuantizeLinear? && d != site.dql ensures d in step.Less() {
      OtherQuantizers(todo, i, site.product, site.cast, d);
    }
  }

  // ---- what stays ----------------------------------------------------------------------------------

  /** A node that no rewrite takes out. */
  predicate Lasting(n: Node) {
    !n.op.DynamicQuantizeLinear? && !n.op.MatMulInteger? && !n.op.Cast?
  }

  lemma LastingStays(step: Step, done: seq<Node>, todo: seq<Node>, inits: seq<Initializer>, defined: set<Name>, k: nat,
                     n: Node)
    requires step.Of(done, todo, inits, defined, k) && n in done + todo && Lasting(n)
    ensures n in step.Done(k) + step.Less()
  {
    DroppedKeeps(step.cut.rest, step.site.product, step.site.cast, n);
    assert n in step.cut.done + [step.site.dql] + step.cut.rest;
  }

  /** The pass leaves the front of the list, the initializers and the lasting nodes as they are. */
  lemma {:induction false} PassLeaves(done: seq<Node>, todo: seq<Node>, inits: seq<Initializer>, defined: set<Name>,
                                      k: nat,
                                      result: Rewrite, n: Node)
    requires Pending(done, todo, Table(inits), defined, k)
    requires RewriteAll(done + todo, inits, Quantizers(todo), k) == Outcome(result, None)
    ensures done <= result.nodes && Extends(Table(inits), Table(result.inits))
    ensures n in done + todo && Lasting(n) ==> n in result.nodes
    decreases |todo|
  {
    if NoQuantizer(todo) {
      NothingToQuantize(todo);
    } else {
      var step := FirstStep(done, todo, inits, defined, k);
      if n in done + todo && Lasting(n) {
        LastingStays(step, done, todo, inits, defined, k, n);
      }
      PassLeaves(step.Done(k), step.Less(), step.inits, defined + ConstantNames(k), k + 1, result, n);
    }
  }

  lemma {:induction false} GoneFrom(nodes: seq<Node>, dqls: seq<Node>, n: Name) returns (d: Node)
    requires n in GoneAll(nodes, dqls)
    ensures d in dqls && n in GoneAt(nodes, d)
  {
    if n in GoneAt(nodes, dqls[0]) {
      d := dqls[0];
    } else {
      d := GoneFrom(nodes, dqls[1..], n);
    }
  }

  /** What is not part of a product reads none of the names that go away. */
  lemma ReadsNothingGone(nodes: seq<Node>, table: Env, n: Node, g: Name)
    requires AllConvertible(nodes, nodes, table) && n in nodes && !n.op.MatMulInteger? && !n.op.Cast? && g in n.inputs
    ensures g !in GoneAll(nodes, Quantizers(nodes))
  {
    if g in GoneAll(nodes, Quantizers(nodes)) {
      var d := GoneFrom(nodes, Quantizers(nodes), g);
      QuantizersAre(nodes, d);
      GoneAtSite(nodes, table, d);
      SiteFacts(nodes, table, d);
    }
  }

  // ---- the chains ----------------------------------------------------------------------------------

  /** A chain in the finished list, between what runs before and after it. */
  datatype Placed = Placed(site: Site, k: nat, pre: seq<Node>, post: seq<Node>) {
    ghost predicate In(result: Rewrite) {
      && site.Shaped() && result.nodes == pre + site.Replacement(k) + post
      && AllOutputs(site.Replacement(k)) == site.Written(k)
      && Original(site.ScaleName()) && Original(site.Out()) && site.ScaleName() != site.Out()
      && Extends(Constants(k, site.weights, site.zero), Table(result.inits))
    }
  }

  lemma ConstantsThere(inits: seq<Initializer>, k: nat, site: Site, last: Env)
    requires Centrable(site.weights, site.zero) && Extends(Table(inits + NewInitializers(k, site)), last)
    ensures Extends(Constants(k, site.weights, site.zero), last)
  {
    TableGrows(inits, k, site);
  }

  lemma FrontAndRest(a: seq<Node>, b: seq<Node>, nodes: seq<Node>) returns (rest: seq<Node>)
    requires a + b <= nodes
    ensures nodes == a + b + rest
  {
    rest := nodes[|a + b|..];
  }

  lemma ChainFacts(cut: Cut, site: Site, k: nat)
    requires cut.Holds(site, k)
    ensures AllOutputs(site.Replacement(k)) == site.Written(k)
    ensures Original(site.ScaleName()) && Original(site.Out()) && site.ScaleName() != site.Out()
  {
    StartSorted(cut, site, k);
    NewNames(cut, site, k);
  }

  lemma PlacedFirst(cut: Cut, site: Site, k: nat, inits: seq<Initializer>, result: Rewrite) returns (p: Placed)
    requires cut.Holds(site, k) && cut.done + site.Replacement(k) <= result.nodes
    requires Extends(Table(inits + NewInitializers(k, site)), Table(result.inits))
    ensures p.In(result) && p.site == site
  {
    var rest := FrontAndRest(cut.done, site.Replacement(k), result.nodes);
    p := Placed(site, k, cut.done, rest);
    ChainFacts(cut, site, k);
    ConstantsThere(inits, k, site, Table(result.inits));
  }

  /** Every dynamic product of the graph has its chain in the finished list. */
  lemma {:induction false} ChainPlaced(done: seq<Node>, todo: seq<Node>, inits: seq<Initializer>, defined: set<Name>,
                                       k: nat,
                                       result: Rewrite, d: Node)
    returns (p: Placed)
    requires Pending(done, todo, Table(inits), defined, k) && d in todo && d.op.DynamicQuantizeLinear?
    requires RewriteAll(done + todo, inits, Quantizers(todo), k) == Outcome(result, None)
    ensures p.In(result) && p.site.dql == d
    decreases |todo|
  {
    var step := FirstStep(done, todo, inits, defined, k);
    if d == step.site.dql {
      PassLeaves(step.Done(k), step.Less(), step.inits, defined + ConstantNames(k), k + 1, result, d);
      p := PlacedFirst(step.cut, step.site, k, inits, result);
    } else {
      p := ChainPlaced(step.Done(k), step.Less(), step.inits, defined + ConstantNames(k), k + 1, result, d);
    }
  }

  // ---- what the chain leaves -----------------------------------------------------------------------

  /** The run of a list cut in three. */
  lemma CutInThree(sem: Semantics, a: seq<Node>, b: seq<Node>, c: seq<Node>, env: Env, end: Env) returns (e: Env,
                   f: Env)
    requires Run(sem, a + b + c, env) == Some(end)
    ensures Run(sem, a, env) == Some(e) && Run(sem, b, e) == Some(f)
    ensures Extends(env, e) && Extends(e, f) && Extends(f, end)
  {
    RunAppend(sem, a + b, c, env);
    RunAppend(sem, a, b, env);
    e := Run(sem, a, env).value;
    f := Run(sem, b, e).value;
    RunExtends(sem, a, env);
    RunExtends(sem, b, e);
    RunExtends(sem, c, f);
  }

  lemma ReadsInput(k: nat, x: Name, scale: Name, zeroPoint: Name, out: Name, defined: set<Name>)
    requires Sorted(Chain(k, x, scale, zeroPoint, out), defined)
    ensures x in defined
  {
    var chain := Chain(k, x, scale, zeroPoint, out);
    assert chain[0] == ExtremeNodes(k, x)[0] && chain[0].inputs == [x];
    assert Runnable(chain[0], defined) && chain[0].inputs[0] == x;
  }

  lemma ChainScale(m: Meaning, site: Site, k: nat, e: Env, f: Env)
    requires site.Shaped() && Run(Onnx(m), site.Replacement(k), e) == Some(f) && Ready(e, k, site.X())
    requires AllOutputs(site.Replacement(k)) == site.Written(k)
    requires Original(site.ScaleName()) && Original(site.Out()) && site.ScaleName() != site.Out()
    ensures site.ScaleName() in f && f[site.ScaleName()] == Unit(|e[site.X()].dims|, Scale(e[site.X()].data))
  {
    OnnxFloats(m);
    RunWorks(Onnx(m));
    RunsIffSorted(Onnx(m), site.Replacement(k), e);
    OutputsNotDefined(site.Replacement(k), e.Keys);
    var g := ChainRun(MachineOf(Onnx(m)), k, site.X(), site.ScaleName(), site.dql.outputs[2], site.Out(), e);
  }

  lemma ReadyAt(k: nat, site: Site, table: Env, start: Env, e: Env, after: Env)
    requires site.Shaped() && Extends(Constants(k, site.weights, site.zero), table)
    requires Extends(table, start) && Extends(start, e)
    requires Extends(e, after) && site.X() in e && |after[site.X()].dims| >= 1 && SomeNonzero(after[site.X()].data)
    ensures Ready(e, k, site.X())
  {
    var c := Constants(k, site.weights, site.zero);
    assert Prefixed(k, TwoFiftyFive) in c && Prefixed(k, WeightsCentred) in c;
    assert table[Prefixed(k, TwoFiftyFive)] == c[Prefixed(k, TwoFiftyFive)] == Unit(1, 255.0);
  }

  /** In the finished run a scale has the axes of the tensor that is quantised, and the one element of a scale. */
  lemma ScaleAfter(m: Meaning, nodes: seq<Node>, inits: seq<Initializer>, env: Env, result: Rewrite, after: Env,
                   d: Node)
    requires Pending([], nodes, Table(inits), env.Keys, 0) && d in nodes && d.op.DynamicQuantizeLinear?
    requires |d.inputs| == 1 && |d.outputs| == 3
    requires RewriteAll(nodes, inits, Quantizers(nodes), 0) == Outcome(result, None)
    requires Run(Onnx(m), result.nodes, env + Table(result.inits)) == Some(after)
    requires d.inputs[0] in after && |after[d.inputs[0]].dims| >= 1 && SomeNonzero(after[d.inputs[0]].data)
    ensures d.outputs[1] in after
    ensures after[d.outputs[1]] == Unit(|after[d.inputs[0]].dims|, Scale(after[d.inputs[0]].data))
  {
    assert [] + nodes == nodes;
    var start := env + Table(result.inits);
    var p := ChainPlaced([], nodes, inits, env.Keys, 0, result, d);
    var site, chain := p.site, p.site.Replacement(p.k);
    var e, f := CutInThree(Onnx(m), p.pre, chain, p.post, start, after);
    RunsIffSorted(Onnx(m), chain, e);
    ReadsInput(p.k, site.X(), site.ScaleName(), site.dql.outputs[2], site.Out(), e.Keys);
    ReadyAt(p.k, site, Table(result.inits), start, e, after);
    ChainScale(m, site, p.k, e, f);
  }
}
