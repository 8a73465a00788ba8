/** Two unnamed slices: their Gathers share one list of positions, and the longer axis loses elements. */
module UnnamedSlices {
  import opened Common
  import opened OnnxGraph
  import opened OnnxOrder
  import opened OnnxRun
  import opened Tensors
  import opened ReverseSlices

  function WholeReverse(x: Name, one: Name, far: Name, out: Name): (n: Node) {
    Node(Slice, "", [x, one, far, one, one], [out])
  }

  function TwoSlices(x: Name, y: Name, one: Name, far: Name, p: Name, r: Name): (nodes: seq<Node>) {
    [WholeReverse(x, one, far, p), WholeReverse(y, one, far, r)]
  }

  function Bounds(one: Name, far: Name): (inits: Env) {
    map[one := Tensor([1], [-1.0]), far := Tensor([1], [INT_MIN_BOUND as real])]
  }

  function TwoShapes(x: Name, y: Name): (shapes: Shapes) {
    map[x := [Some(3)], y := [Some(2)]]
  }

  lemma BothReversed(x: Name, y: Name, one: Name, far: Name, p: Name, r: Name)
    requires x != y && one != far
    ensures Judge(WholeReverse(x, one, far, p), TwoShapes(x, y), Bounds(one, far)) == Reverse(-1, 3)
    ensures Judge(WholeReverse(y, one, far, r), TwoShapes(x, y), Bounds(one, far)) == Reverse(-1, 2)
  {
    var a, b := WholeReverse(x, one, far, p), WholeReverse(y, one, far, r);
    assert Judge(a, TwoShapes(x, y), Bounds(one, far)) == SizeAlong(a, TwoShapes(x, y), -1);
    assert Judge(b, TwoShapes(x, y), Bounds(one, far)) == SizeAlong(b, TwoShapes(x, y), -1);
  }

  lemma BothRewritten(x: Name, y: Name, one: Name, far: Name, p: Name, r: Name)
    requires x != y && one != far
    ensures var nodes, shapes, inits := TwoSlices(x, y, one, far, p, r), TwoShapes(x, y), Bounds(one, far);
            && RewrittenAll(nodes, shapes, inits) == [AsGather(nodes[0], -1), AsGather(nodes[1], -1)]
            && AllJudged(nodes, shapes, inits)
  {
    BothReversed(x, y, one, far, p, r);
  }

  lemma TableOfTwo(a: Initializer, b: Initializer)
    requires a.name == b.name
    ensures Table([a, b]) == map[a.name := b.value]
  {
    assert [a, b][..1] == [a] && [a][..0] == [];
    assert Table([a]) == map[a.name := a.value];
  }

  lemma SharedIndices(x: Name, y: Name, one: Name, far: Name, p: Name, r: Name)
    requires x != y && one != far
    ensures var nodes, shapes, inits := TwoSlices(x, y, one, far, p, r), TwoShapes(x, y), Bounds(one, far);
            && Table(Added(nodes, shapes, inits)).Keys == {ReverseIndices("")}
            && Table(Added(nodes, shapes, inits))[ReverseIndices("")] == Tensor([2], Backwards(2))
  {
    var nodes, shapes, inits := TwoSlices(x, y, one, far, p, r), TwoShapes(x, y), Bounds(one, far);
    BothReversed(x, y, one, far, p, r);
    assert nodes[..1] == [nodes[0]] && nodes[..1][..0] == [];
    var three, two := Indices(nodes[0], 3), Indices(nodes[1], 2);
    assert Added(nodes[..1], shapes, inits) == [three];
    assert Added(nodes, shapes, inits) == [three, two];
    TableOfTwo(three, two);
  }

  /** The arguments of a slice that runs its axis backwards. */
  function BackwardsArgs(x: Tensor): (args: seq<Tensor>) {
    var one, far := Tensor([1], [-1.0]), Tensor([1], [INT_MIN_BOUND as real]);
    [x, one, far, one, one]
  }

  /** The first Gather picks two elements where the Slice had three. */
  lemma ShorterGather(m: Meaning, x: Tensor, i: nat)
    requires x.dims == [3]
    ensures Onnx(m)(Gather(-1), [x, Tensor([2], Backwards(2))], i).dims == [2]
    ensures Onnx(m)(Slice, BackwardsArgs(x), i).dims == [3]
  {
    GatherOther(m, x, -1, 2, i);
    SliceApplied(m, BackwardsArgs(x), i);
    WholeAxisExactly(3, INT_MIN_BOUND);
  }

  lemma FirstOf(sem: Semantics, a: Node, b: Node, env: Env)
    requires Runnable(a, env.Keys) && Runnable(b, env.Keys + Outputs(a))
    ensures Run(sem, [a, b], env).Some? && Computes(sem, a, Run(sem, [a, b], env).value)
    ensures Extends(env, Run(sem, [a, b], env).value)
  {
    SortedPair(a, b, env.Keys);
    RunsIffSorted(sem, [a, b], env);
    RunComputes(sem, [a, b], env, a);
    RunExtends(sem, [a, b], env);
  }

  /** The names of the example are six different names of the model. */
  predicate SixNames(x: Name, y: Name, one: Name, far: Name, p: Name, r: Name) {
    && x !in {y, one, far, p, r} && y !in {one, far, p, r} && one !in {far, p, r} && far !in {p, r} && p != r
    && x.Given? && y.Given? && one.Given? && far.Given? && p.Given? && r.Given?
  }

  lemma SlicesRunnable(x: Name, y: Name, one: Name, far: Name, p: Name, r: Name, defined: set<Name>)
    requires SixNames(x, y, one, far, p, r) && defined == {x, y, one, far}
    ensures var a, b := WholeReverse(x, one, far, p), WholeReverse(y, one, far, r);
            Runnable(a, defined) && Runnable(b, defined + Outputs(a))
  {
  }

  lemma SliceArgs(x: Name, one: Name, far: Name, p: Name, env: Env, end: Env)
    requires x in env && one in env && far in env && one != far && Extends(Bounds(one, far), env) && Extends(env, end)
    ensures Args(WholeReverse(x, one, far, p), end) == BackwardsArgs(env[x])
  {
    assert env[one] == Bounds(one, far)[one] && env[far] == Bounds(one, far)[far];
  }

  lemma SlicesRun(m: Meaning, x: Name, y: Name, one: Name, far: Name, p: Name, r: Name, env: Env)
    requires SixNames(x, y, one, far, p, r) && env.Keys == {x, y, one, far}
    requires Extends(Bounds(one, far), env) && env[x].dims == [3]
    ensures var before := Run(Onnx(m), TwoSlices(x, y, one, far, p, r), env);
            before.Some? && p in before.value && before.value[p].dims == [3]
  {
    var a, b := WholeReverse(x, one, far, p), WholeReverse(y, one, far, r);
    SlicesRunnable(x, y, one, far, p, r, env.Keys);
    FirstOf(Onnx(m), a, b, env);
    var end := Run(Onnx(m), [a, b], env).value;
    SliceArgs(x, one, far, p, env, end);
    assert a.outputs[0] == p;
    ShorterGather(m, env[x], 0);
  }

  lemma GathersRunnable(x: Name, y: Name, one: Name, far: Name, p: Name, r: Name, defined: set<Name>)
    requires SixNames(x, y, one, far, p, r) && ReverseIndices("") in defined
    requires {x, y} <= defined && defined <= {x, y, one, far, ReverseIndices("")}
    ensures var nodes := TwoSlices(x, y, one, far, p, r);
            var a, b := AsGather(nodes[0], -1), AsGather(nodes[1], -1);
            Runnable(a, defined) && Runnable(b, defined + Outputs(a))
  {
  }

  lemma GathersRun(m: Meaning, x: Name, y: Name, one: Name, far: Name, p: Name, r: Name, env: Env)
    requires SixNames(x, y, one, far, p, r) && {x, y} <= env.Keys
    requires env.Keys <= {x, y, one, far, ReverseIndices("")} && env[x].dims == [3]
    requires ReverseIndices("") in env && env[ReverseIndices("")] == Tensor([2], Backwards(2))
    ensures var nodes := TwoSlices(x, y, one, far, p, r);
            var after := Run(Onnx(m), [AsGather(nodes[0], -1), AsGather(nodes[1], -1)], env);
            after.Some? && p in after.value && after.value[p].dims == [2]
  {
    var nodes := TwoSlices(x, y, one, far, p, r);
    var a, b := AsGather(nodes[0], -1), AsGather(nodes[1], -1);
    GathersRunnable(x, y, one, far, p, r, env.Keys);
    FirstOf(Onnx(m), a, b, env);
    var end := Run(Onnx(m), [a, b], env).value;
    assert Args(a, end) == [env[x], Tensor([2], Backwards(2))];
    assert a.outputs[0] == p;
    ShorterGather(m, env[x], 0);
  }

  lemma RewrittenRun(m: Meaning, x: Name, y: Name, one: Name, far: Name, p: Name, r: Name, env: Env)
    requires SixNames(x, y, one, far, p, r) && env.Keys == {x, y, one, far} && env[x].dims == [3]
    ensures var nodes, shapes, inits := TwoSlices(x, y, one, far, p, r), TwoShapes(x, y), Bounds(one, far);
            var after := Run(Onnx(m), RewrittenAll(nodes, shapes, inits), env + Table(Added(nodes, shapes, inits)));
            after.Some? && p in after.value && after.value[p].dims == [2]
  {
    BothRewritten(x, y, one, far, p, r);
    SharedIndices(x, y, one, far, p, r);
    var extra := Table(Added(TwoSlices(x, y, one, far, p, r), TwoShapes(x, y), Bounds(one, far)));
    assert (env + extra).Keys == {x, y, one, far, ReverseIndices("")};
    GathersRun(m, x, y, one, far, p, r, env + extra);
  }

  /** Two unnamed slices over axes of three and of two elements: after the pass the first result has two elements. */
  lemma UnnamedSlicesClash(m: Meaning, x: Name, y: Name, one: Name, far: Name, p: Name, r: Name, env: Env)
    requires SixNames(x, y, one, far, p, r) && env.Keys == {x, y, one, far} && Extends(Bounds(one, far), env)
    requires env[x].dims == [3] && env[y].dims == [2]
    ensures var nodes, shapes, inits := TwoSlices(x, y, one, far, p, r), TwoShapes(x, y), Bounds(one, far);
            var before := Run(Onnx(m), nodes, env);
            var after := Run(Onnx(m), RewrittenAll(nodes, shapes, inits), env + Table(Added(nodes, shapes, inits)));
            && AllJudged(nodes, shapes, inits) && before.Some? && after.Some? && p in before.value && p in after.value
            && before.value[p].dims == [3] && after.value[p].dims == [2]
  {
    BothRewritten(x, y, one, far, p, r);
    SlicesRun(m, x, y, one, far, p, r, env);
    RewrittenRun(m, x, y, one, far, p, r, env);
  }
}
