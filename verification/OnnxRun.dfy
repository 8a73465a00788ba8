/** Running a node list: each node reads names that have a value and gives a value to names that had none. */
module OnnxRun {
  import opened Common
  import opened OnnxGraph
  import opened OnnxOrder
  import opened Tensors

  type Env = map<Name, Tensor>

  datatype Initializer = Initializer(name: Name, value: Tensor)

  /** Initializers by name; of two with one name the later one stays. */
  function Table(inits: seq<Initializer>): (t: Env) {
    if inits == [] then map[]
    else
      var last := inits[|inits| - 1];
      Table(inits[..|inits| - 1])[last.name := last.value]
  }

  /** Static shapes: the dimensions that shape inference knows. */
  type Shapes = map<Name, seq<Option<nat>>>

  /** Where a dimension is known, the tensor has it. */
  ghost predicate ShapesHold(shapes: Shapes, end: Env) {
    forall n :: n in shapes && n in end ==>
      |end[n].dims| == |shapes[n]| && forall a :: 0 <= a < |shapes[n]| ==> shapes[n][a].Some? ==>
        end[n].dims[a] == shapes[n][a].value
  }

  /** The i-th output of an operator. */
  type Semantics = (Op, seq<Tensor>, nat) -> Tensor

  /** What the ONNX operators mean. */
  ghost function Onnx(m: Meaning): (sem: Semantics) {
    (op: Op, args: seq<Tensor>, i: nat) => Apply(m, op, args, i)
  }

  predicate Reads(node: Node, env: Env) {
    forall i :: 0 <= i < |node.inputs| ==> node.inputs[i] in env
  }

  function Args(node: Node, env: Env): (args: seq<Tensor>)
    requires Reads(node, env)
    ensures |args| == |node.inputs| && forall i :: 0 <= i < |args| ==> args[i] == env[node.inputs[i]]
  {
    seq(|node.inputs|, i requires 0 <= i < |node.inputs| => env[node.inputs[i]])
  }

  function Index(names: seq<Name>, n: Name): (i: nat)
    requires n in names
    ensures i < |names| && names[i] == n
  {
    if names[0] == n then 0 else 1 + Index(names[1..], n)
  }

  ghost function After(sem: Semantics, node: Node, env: Env): (r: Env)
    requires Runnable(node, env.Keys)
  {
    map n | n in env.Keys + Outputs(node) ::
      if n in env then env[n] else sem(node.op, Args(node, env), Index(node.outputs, n))
  }

  ghost function Run(sem: Semantics, nodes: seq<Node>, env: Env): (r: Option<Env>) {
    if nodes == [] then Some(env)
    else if Runnable(nodes[0], env.Keys) then Run(sem, nodes[1..], After(sem, nodes[0], env))
    else None
  }

  ghost predicate Extends(small: Env, large: Env) {
    forall n :: n in small ==> n in large && large[n] == small[n]
  }

  // ---- what a run keeps ----------------------------------------------------------------------------

  lemma AfterAt(sem: Semantics, node: Node, env: Env, i: nat)
    requires Runnable(node, env.Keys) && i < |node.outputs|
    ensures node.outputs[i] in After(sem, node, env)
    ensures After(sem, node, env)[node.outputs[i]] == sem(node.op, Args(node, env), i)
  {
    assert node.outputs[i] in node.outputs;
    assert Index(node.outputs, node.outputs[i]) == i;
  }

  lemma {:induction false} RunsIffSorted(sem: Semantics, nodes: seq<Node>, env: Env)
    ensures Run(sem, nodes, env).Some? <==> Sorted(nodes, env.Keys)
  {
    if nodes != [] && Runnable(nodes[0], env.Keys) {
      assert After(sem, nodes[0], env).Keys == env.Keys + Outputs(nodes[0]);
      RunsIffSorted(sem, nodes[1..], After(sem, nodes[0], env));
    }
  }

  lemma {:induction false} RunExtends(sem: Semantics, nodes: seq<Node>, env: Env)
    requires Run(sem, nodes, env).Some?
    ensures Extends(env, Run(sem, nodes, env).value)
  {
    if nodes != [] {
      RunExtends(sem, nodes[1..], After(sem, nodes[0], env));
    }
  }

  lemma {:induction false} RunAppend(sem: Semantics, a: seq<Node>, b: seq<Node>, env: Env)
    ensures Run(sem, a + b, env) == if Run(sem, a, env).Some? then Run(sem, b, Run(sem, a, env).value) else None
  {
    if a == [] {
      assert a + b == b;
    } else {
      assert (a + b)[0] == a[0] && (a + b)[1..] == a[1..] + b;
      if Runnable(a[0], env.Keys) {
        RunAppend(sem, a[1..], b, After(sem, a[0], env));
      }
    }
  }

  // ---- values of a finished run --------------------------------------------------------------------

  /** The environment gives the outputs of the node what its operator makes of its inputs. */
  ghost predicate Computes(sem: Semantics, node: Node, end: Env) {
    && Reads(node, end)
    && forall i :: 0 <= i < |node.outputs| ==>
         node.outputs[i] in end && end[node.outputs[i]] == sem(node.op, Args(node, end), i)
  }

  lemma {:induction false} RunDefines(sem: Semantics, nodes: seq<Node>, env: Env)
    requires Run(sem, nodes, env).Some?
    ensures Run(sem, nodes, env).value.Keys == env.Keys + AllOutputs(nodes)
  {
    if nodes != [] {
      RunDefines(sem, nodes[1..], After(sem, nodes[0], env));
    }
  }

  lemma ComputesNow(sem: Semantics, node: Node, env: Env, end: Env)
    requires Runnable(node, env.Keys) && Extends(After(sem, node, env), end)
    ensures Computes(sem, node, end)
  {
    assert Args(node, end) == Args(node, env);
    forall i | 0 <= i < |node.outputs|
      ensures node.outputs[i] in end && end[node.outputs[i]] == sem(node.op, Args(node, end), i)
    {
      AfterAt(sem, node, env, i);
    }
  }

  lemma {:induction false} RunComputes(sem: Semantics, nodes: seq<Node>, env: Env, node: Node)
    requires Run(sem, nodes, env).Some? && node in nodes
    ensures Computes(sem, node, Run(sem, nodes, env).value)
  {
    var next := After(sem, nodes[0], env);
    if node == nodes[0] {
      RunExtends(sem, nodes[1..], next);
      ComputesNow(sem, node, env, Run(sem, nodes, env).value);
    } else {
      assert node in nodes[1..];
      RunComputes(sem, nodes[1..], next, node);
    }
  }

  // ---- runs of two and three nodes -----------------------------------------------------------------

  /** Operators together with how a list of them runs, so that a proof about runs need not unfold either. */
  datatype Machine = Machine(sem: Semantics, run: (seq<Node>, Env) -> Option<Env>)

  ghost function MachineOf(sem: Semantics): (mc: Machine) {
    Machine(sem, (nodes: seq<Node>, env: Env) => Run(sem, nodes, env))
  }

  /** A run of `nodes` from `env` that ends in `end` and adds exactly `names`. */
  ghost predicate Adds(mc: Machine, nodes: seq<Node>, env: Env, end: Env, names: set<Name>) {
    mc.run(nodes, env) == Some(end) && Extends(env, end) && end.Keys == env.Keys + names
  }

  ghost predicate AppendLaw(mc: Machine, a: seq<Node>, b: seq<Node>, env: Env) {
    mc.run(a + b, env) == if mc.run(a, env).Some? then mc.run(b, mc.run(a, env).value) else None
  }

  ghost predicate PairLaw(mc: Machine, a: Node, b: Node, env: Env) {
    Runnable(a, env.Keys) && Runnable(b, env.Keys + Outputs(a)) ==>
      exists end :: && Adds(mc, [a, b], env, end, Outputs(a) + Outputs(b))
                    && Computes(mc.sem, a, end) && Computes(mc.sem, b, end)
  }

  ghost predicate TripleLaw(mc: Machine, a: Node, b: Node, c: Node, env: Env) {
    Runnable(a, env.Keys) && Runnable(b, env.Keys + Outputs(a)) && Runnable(c, env.Keys + Outputs(a) + Outputs(b)) ==>
      exists end :: Adds(mc, [a, b, c], env, end, Outputs(a) + Outputs(b) + Outputs(c))
                    && Computes(mc.sem, a, end) && Computes(mc.sem, b, end) && Computes(mc.sem, c, end)
  }

  ghost predicate Works(mc: Machine) {
    && (forall a, b, env :: AppendLaw(mc, a, b, env))
    && (forall a, b, env :: PairLaw(mc, a, b, env))
    && (forall a, b, c, env :: TripleLaw(mc, a, b, c, env))
  }

  lemma AddsAppend(mc: Machine, a: seq<Node>, b: seq<Node>, env: Env, mid: Env, end: Env, m: set<Name>, n: set<Name>)
    requires Works(mc) && Adds(mc, a, env, mid, m) && Adds(mc, b, mid, end, n)
    ensures Adds(mc, a + b, env, end, m + n)
  {
    assert AppendLaw(mc, a, b, env);
  }

  lemma RunSorted(sem: Semantics, nodes: seq<Node>, env: Env) returns (end: Env)
    requires Sorted(nodes, env.Keys)
    ensures Adds(MachineOf(sem), nodes, env, end, AllOutputs(nodes))
  {
    RunsIffSorted(sem, nodes, env);
    end := Run(sem, nodes, env).value;
    RunExtends(sem, nodes, env);
    RunDefines(sem, nodes, env);
  }

  lemma RunPair(sem: Semantics, a: Node, b: Node, env: Env)
    ensures PairLaw(MachineOf(sem), a, b, env)
  {
    if Runnable(a, env.Keys) && Runnable(b, env.Keys + Outputs(a)) {
      SortedPair(a, b, env.Keys);
      var end := RunSorted(sem, [a, b], env);
      RunComputes(sem, [a, b], env, a);
      RunComputes(sem, [a, b], env, b);
    }
  }

  lemma RunTriple(sem: Semantics, a: Node, b: Node, c: Node, env: Env)
    ensures TripleLaw(MachineOf(sem), a, b, c, env)
  {
    if Runnable(a, env.Keys) && Runnable(b, env.Keys + Outputs(a)) && Runnable(c, env.Keys + Outputs(a) + Outputs(b)) {
      SortedTriple(a, b, c, env.Keys);
      var end := RunSorted(sem, [a, b, c], env);
      RunComputes(sem, [a, b, c], env, a);
      RunComputes(sem, [a, b, c], env, b);
      RunComputes(sem, [a, b, c], env, c);
    }
  }

  lemma RunWorks(sem: Semantics)
    ensures Works(MachineOf(sem))
  {
    var mc := MachineOf(sem);
    forall a, b, env ensures AppendLaw(mc, a, b, env) {
      RunAppend(sem, a, b, env);
    }
    forall a, b, env ensures PairLaw(mc, a, b, env) {
      RunPair(sem, a, b, env);
    }
    forall a, b, c, env ensures TripleLaw(mc, a, b, c, env) {
      RunTriple(sem, a, b, c, env);
    }
  }

  // ---- replacing nodes one for one -----------------------------------------------------------------

  /** In the finished run, `after` with some extra constants gives its outputs the values `before` gives them. */
  ghost predicate Equivalent(sem: Semantics, before: Node, after: Node, end: Env, extra: Env) {
    && after.outputs == before.outputs
    && (forall i :: 0 <= i < |after.inputs| ==> after.inputs[i] in before.inputs || after.inputs[i] in extra)
    && (Reads(before, end) && Reads(after, end + extra) ==>
         forall i :: 0 <= i < |before.outputs| ==>
           sem(after.op, Args(after, end + extra), i) == sem(before.op, Args(before, end), i))
  }

  lemma SameAsItself(sem: Semantics, node: Node, end: Env, extra: Env)
    requires end.Keys !! extra.Keys
    ensures Equivalent(sem, node, node, end, extra)
  {
    if Reads(node, end) {
      assert Args(node, end + extra) == Args(node, end);
    }
  }

  lemma ArgsLater(node: Node, env: Env, end: Env)
    requires Reads(node, env) && Extends(env, end)
    ensures Reads(node, end) && Args(node, end) == Args(node, env)
  {
  }

  lemma RunnableToo(before: Node, after: Node, env: Env, extra: Env)
    requires Runnable(before, env.Keys) && after.outputs == before.outputs
    requires forall i :: 0 <= i < |after.inputs| ==> after.inputs[i] in before.inputs || after.inputs[i] in extra
    requires forall i :: 0 <= i < |before.outputs| ==> before.outputs[i] !in extra
    ensures Runnable(after, (env + extra).Keys)
  {
  }

  lemma AfterBoth(sem: Semantics, before: Node, after: Node, env: Env, extra: Env, n: Name)
    requires Runnable(before, env.Keys) && Runnable(after, (env + extra).Keys) && after.outputs == before.outputs
    requires forall i :: 0 <= i < |before.outputs| ==>
               sem(after.op, Args(after, env + extra), i) == sem(before.op, Args(before, env), i)
    requires n in After(sem, after, env + extra)
    ensures n in After(sem, before, env) + extra
    ensures After(sem, after, env + extra)[n] == (After(sem, before, env) + extra)[n]
  {
    if n !in env + extra {
      var i := Index(before.outputs, n);
      AfterAt(sem, before, env, i);
      AfterAt(sem, after, env + extra, i);
    }
  }

  lemma SameResults(sem: Semantics, before: Node, after: Node, env: Env, end: Env, extra: Env)
    requires Reads(before, env) && Reads(after, env + extra) && Extends(env, end) && end.Keys !! extra.Keys
    requires Equivalent(sem, before, after, end, extra)
    ensures forall i :: 0 <= i < |before.outputs| ==>
              sem(after.op, Args(after, env + extra), i) == sem(before.op, Args(before, env), i)
  {
    ArgsLater(before, env, end);
    ArgsLater(after, env + extra, end + extra);
  }

  lemma AfterAll(sem: Semantics, before: Node, after: Node, env: Env, extra: Env)
    requires Runnable(before, env.Keys) && Runnable(after, (env + extra).Keys) && after.outputs == before.outputs
    requires forall i :: 0 <= i < |before.outputs| ==>
               sem(after.op, Args(after, env + extra), i) == sem(before.op, Args(before, env), i)
    ensures After(sem, after, env + extra) == After(sem, before, env) + extra
  {
    var r, s := After(sem, after, env + extra), After(sem, before, env) + extra;
    forall n | n in r ensures n in s && r[n] == s[n] {
      AfterBoth(sem, before, after, env, extra, n);
    }
    assert s.Keys <= r.Keys;
  }

  lemma StepEquivalent(sem: Semantics, before: Node, after: Node, env: Env, end: Env, extra: Env)
    requires Runnable(before, env.Keys) && Extends(env, end) && end.Keys !! extra.Keys
    requires forall i :: 0 <= i < |before.outputs| ==> before.outputs[i] in end
    requires Equivalent(sem, before, after, end, extra)
    ensures Runnable(after, (env + extra).Keys)
    ensures After(sem, after, env + extra) == After(sem, before, env) + extra
  {
    RunnableToo(before, after, env, extra);
    SameResults(sem, before, after, env, end, extra);
    AfterAll(sem, before, after, env, extra);
  }

  /** Replacing nodes one for one by equivalent ones changes no value. */
  lemma {:induction false} ReplacedOneForOne(sem: Semantics, nodes: seq<Node>, replaced: seq<Node>, env: Env,
                                             extra: Env)
    requires Run(sem, nodes, env).Some? && |nodes| == |replaced|
    requires Run(sem, nodes, env).value.Keys !! extra.Keys
    requires forall k :: 0 <= k < |nodes| ==> Equivalent(sem, nodes[k], replaced[k], Run(sem, nodes, env).value, extra)
    ensures Run(sem, replaced, env + extra) == Some(Run(sem, nodes, env).value + extra)
  {
    if nodes != [] {
      var next := After(sem, nodes[0], env);
      RunExtends(sem, nodes, env);
      RunExtends(sem, nodes[1..], next);
      forall i | 0 <= i < |nodes[0].outputs| ensures nodes[0].outputs[i] in Run(sem, nodes, env).value {
        AfterAt(sem, nodes[0], env, i);
      }
      StepEquivalent(sem, nodes[0], replaced[0], env, Run(sem, nodes, env).value, extra);
      ReplacedOneForOne(sem, nodes[1..], replaced[1..], next, extra);
    }
  }
}
