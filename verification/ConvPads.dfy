/** A Conv with auto_pad SAME_UPPER gets explicit pads and keeps its meaning. */
module ConvPads {
  import opened Common
  import opened OnnxGraph
  import opened Tensors
  import opened OnnxRun
  import SamePads

  datatype ConvError = NoInputs | NoShape | NoKernel | Unpaddable(why: SamePads.PadError)

  predicate IsSameUpperConv(node: Node) {
    node.op.Conv? && node.op.autoPad == Some("SAME_UPPER")
  }

  /** The spatial dimensions of a kernel. */
  function Spatial(w: Tensor): (r: seq<nat>) {
    if |w.dims| <= 2 then [] else w.dims[2..]
  }

  /** The pads of this node can be computed. */
  predicate Known(node: Node, shapes: Shapes, inits: Env) {
    && |node.inputs| >= 2 && node.inputs[0] in shapes && node.inputs[1] in inits && node.op.Conv?
    && var rank := |Spatial(inits[node.inputs[1]])|;
       SamePads.AllKnown(shapes[node.inputs[0]], SamePads.OrOnes(node.op.strides, rank),
                         SamePads.OrOnes(node.op.dilations, rank), rank)
  }

  /** Why the pads of this node cannot be computed; the shape is looked up before the kernel. */
  ghost predicate IsFault(node: Node, shapes: Shapes, inits: Env, e: ConvError)
    requires node.op.Conv?
  {
    match e
    case NoInputs => node.inputs == [] || (|node.inputs| == 1 && node.inputs[0] in shapes)
    case NoShape => node.inputs != [] && node.inputs[0] !in shapes
    case NoKernel => |node.inputs| >= 2 && node.inputs[0] in shapes && node.inputs[1] !in inits
    case Unpaddable(why) =>
      && |node.inputs| >= 2 && node.inputs[0] in shapes && node.inputs[1] in inits
      && var rank := |Spatial(inits[node.inputs[1]])|;
         SamePads.FirstFault(shapes[node.inputs[0]], SamePads.OrOnes(node.op.strides, rank),
                             SamePads.OrOnes(node.op.dilations, rank), rank, why)
  }

  /** A node has pads or it has one fault. */
  lemma OneFault(node: Node, shapes: Shapes, inits: Env, e: ConvError, f: ConvError)
    requires node.op.Conv? && IsFault(node, shapes, inits, e)
    ensures !Known(node, shapes, inits) && (IsFault(node, shapes, inits, f) <==> e == f)
  {
    if e.Unpaddable? {
      var rank := |Spatial(inits[node.inputs[1]])|;
      var strides, dilations := SamePads.OrOnes(node.op.strides, rank), SamePads.OrOnes(node.op.dilations, rank);
      SamePads.FirstFaultUnique(shapes[node.inputs[0]], strides, dilations, rank, e.why,
                                if f.Unpaddable? then f.why else e.why);
    }
  }

  /** The first `i` nodes of a list have explicit pads. */
  ghost predicate ConvsDone(list: seq<Node>, shapes: Shapes, inits: Env, i: nat, nodes: seq<Node>) {
    i <= |list| && AllKnown(list[..i], shapes, inits) && nodes == ExplicitAll(list[..i], shapes, inits) + list[i..]
  }

  /** The loop at node `i`. */
  ghost predicate ConvLoop(list: seq<Node>, shapes: Shapes, inits: Env, i: nat, fixed: nat, nodes: seq<Node>) {
    |nodes| == |list| && ConvsDone(list, shapes, inits, i, nodes) && fixed == CountConvs(list[..i])
  }

  /** The loop stopped at the first node whose pads cannot be computed, with the nodes before it done. */
  ghost predicate StoppedAt(list: seq<Node>, shapes: Shapes, inits: Env, k: nat, e: ConvError, nodes: seq<Node>) {
    && k < |list| && ConvsDone(list, shapes, inits, k, nodes)
    && IsSameUpperConv(list[k]) && IsFault(list[k], shapes, inits, e)
  }

  lemma StoppedUnknown(list: seq<Node>, shapes: Shapes, inits: Env, k: nat, e: ConvError, nodes: seq<Node>)
    requires StoppedAt(list, shapes, inits, k, e, nodes)
    ensures !AllKnown(list, shapes, inits)
  {
    OneFault(list[k], shapes, inits, e, e);
  }

  function PadsFor(node: Node, shapes: Shapes, inits: Env): (r: seq<nat>)
    requires Known(node, shapes, inits)
  {
    var kernel := Spatial(inits[node.inputs[1]]);
    SamePads.PadsOf(shapes[node.inputs[0]], kernel, SamePads.OrOnes(node.op.strides, |kernel|),
                    SamePads.OrOnes(node.op.dilations, |kernel|))
  }

  function Explicit(node: Node, shapes: Shapes, inits: Env): (n: Node) {
    if IsSameUpperConv(node) && Known(node, shapes, inits)
    then node.(op := node.op.(autoPad := None, pads := Some(PadsFor(node, shapes, inits))))
    else node
  }

  function ExplicitAll(nodes: seq<Node>, shapes: Shapes, inits: Env): (r: seq<Node>)
    ensures |r| == |nodes|
  {
    seq(|nodes|, i requires 0 <= i < |nodes| => Explicit(nodes[i], shapes, inits))
  }

  predicate AllKnown(nodes: seq<Node>, shapes: Shapes, inits: Env) {
    forall i :: 0 <= i < |nodes| && IsSameUpperConv(nodes[i]) ==> Known(nodes[i], shapes, inits)
  }

  function CountConvs(nodes: seq<Node>): (n: nat) {
    if nodes == [] then 0 else CountConvs(nodes[..|nodes| - 1]) + if IsSameUpperConv(nodes[|nodes| - 1]) then 1 else 0
  }

  /**
    A Conv with auto_pad SAME_UPPER has lost that and has the pads of every spatial axis of its kernel, first
    where they begin, then where they end; any other node is as it was.
   */
  ghost predicate ConvGone(node: Node, shapes: Shapes, inits: Env, after: Node) {
    if node.op.Conv? && node.op.autoPad == Some("SAME_UPPER") then
      && |node.inputs| >= 2 && node.inputs[0] in shapes && node.inputs[1] in inits
      && after == node.(op := after.op) && after.op.Conv? && after.op.pads.Some?
      && after.op == node.op.(autoPad := None, pads := after.op.pads)
      && var rank := |Spatial(inits[node.inputs[1]])|;
         && |after.op.pads.value| == 2 * rank
         && forall a :: 0 <= a < rank ==> AxisGone(node, shapes, inits, a, after.op.pads.value[a],
                                                   after.op.pads.value[rank + a])
    else after == node
  }

  /** The pads of one axis meet what SAME_UPPER asks, with no more padding than it takes. */
  ghost predicate AxisGone(node: Node, shapes: Shapes, inits: Env, a: nat, begin: nat, end: nat)
    requires |node.inputs| >= 2 && node.inputs[0] in shapes && node.inputs[1] in inits && node.op.Conv?
    requires a < |Spatial(inits[node.inputs[1]])|
  {
    var shape, kernel := shapes[node.inputs[0]], Spatial(inits[node.inputs[1]]);
    var strides := SamePads.OrOnes(node.op.strides, |kernel|);
    var dilations := SamePads.OrOnes(node.op.dilations, |kernel|);
    && SamePads.AxisKnown(shape, strides, dilations, a)
    && (kernel[a] > 0 && dilations[a] > 0 ==>
          SamePads.IsSameUpper(shape[2 + a].value, SamePads.Effective(kernel[a], dilations[a]), strides[a],
                               SamePads.Pads(begin, end)))
  }

  lemma ExplicitExactly(node: Node, shapes: Shapes, inits: Env)
    requires IsSameUpperConv(node) ==> Known(node, shapes, inits)
    ensures ConvGone(node, shapes, inits, Explicit(node, shapes, inits))
  {
    if IsSameUpperConv(node) {
      var shape, kernel := shapes[node.inputs[0]], Spatial(inits[node.inputs[1]]);
      var strides := SamePads.OrOnes(node.op.strides, |kernel|);
      var dilations := SamePads.OrOnes(node.op.dilations, |kernel|);
      var pads := PadsFor(node, shapes, inits);
      forall a | 0 <= a < |kernel| ensures AxisGone(node, shapes, inits, a, pads[a], pads[|kernel| + a]) {
        assert SamePads.AxisKnown(shape, strides, dilations, a);
        if kernel[a] > 0 && dilations[a] > 0 {
          var p := SamePads.Pads(pads[a], pads[|kernel| + a]);
          SamePads.PadsOfExactly(shape, kernel, strides, dilations, a, p);
        }
      }
    }
  }

  /** Every node of the list in its place; so no Conv with auto_pad SAME_UPPER is left. */
  ghost predicate ConvsGone(nodes: seq<Node>, shapes: Shapes, inits: Env, after: seq<Node>) {
    |after| == |nodes| && forall i :: 0 <= i < |nodes| ==> ConvGone(nodes[i], shapes, inits, after[i])
  }

  lemma ExplicitAllExactly(nodes: seq<Node>, shapes: Shapes, inits: Env)
    requires AllKnown(nodes, shapes, inits)
    ensures ConvsGone(nodes, shapes, inits, ExplicitAll(nodes, shapes, inits))
  {
    forall i | 0 <= i < |nodes| ensures ConvGone(nodes[i], shapes, inits, Explicit(nodes[i], shapes, inits)) {
      ExplicitExactly(nodes[i], shapes, inits);
    }
  }

  /**
    What the loop makes of the list.  It succeeds exactly when all pads can be computed, and then every
    SAME_UPPER has given way to pads; otherwise it stops at the first node whose pads cannot.
   */
  ghost predicate ConvsFixed(list: seq<Node>, shapes: Shapes, inits: Env, r: Result<nat, ConvError>,
                             nodes: seq<Node>)
  {
    && (r.Ok? <==> AllKnown(list, shapes, inits))
    && (r.Ok? ==> nodes == ExplicitAll(list, shapes, inits) && r.value == CountConvs(list))
    && (r.Ok? ==> ConvsGone(list, shapes, inits, nodes))
    && (r.Err? ==> exists k :: StoppedAt(list, shapes, inits, k, r.error, nodes))
  }

  /** The count is that of the places that hold a Conv with auto_pad SAME_UPPER. */
  lemma {:induction false} CountExactly(nodes: seq<Node>)
    ensures CountConvs(nodes)
            == |set i | 0 <= i < |nodes| && nodes[i].op.Conv? && nodes[i].op.autoPad == Some("SAME_UPPER")|
  {
    if nodes != [] {
      var n := |nodes| - 1;
      CountExactly(nodes[..n]);
      var all := set i | 0 <= i < |nodes| && nodes[i].op.Conv? && nodes[i].op.autoPad == Some("SAME_UPPER");
      var front := set i | 0 <= i < n && nodes[..n][i].op.Conv? && nodes[..n][i].op.autoPad == Some("SAME_UPPER");
      assert all == front + if IsSameUpperConv(nodes[n]) then {n} else {};
    }
  }

  // ---- values --------------------------------------------------------------------------------------

  lemma AxisAgrees(x: Tensor, w: Tensor, shape: seq<Option<nat>>, strides: seq<nat>, dilations: seq<nat>, a: nat)
    requires Paddable(x, w, strides, dilations) && a < |strides|
    requires |shape| == |x.dims| && SamePads.AxisKnown(shape, strides, dilations, a)
    requires shape[2 + a].value == x.dims[2 + a]
    ensures AxisSameUpper(x, w, strides, dilations, a) == SamePads.PadsAt(shape, Spatial(w), strides, dilations, a)
  {
    assert Spatial(w)[a] == w.dims[2 + a];
    assert (w.dims[2 + a] as int - 1) * dilations[a] >= 0;
    SamePads.PadsExactly(x.dims[2 + a], SamePads.Effective(w.dims[2 + a], dilations[a]), strides[a],
                         AxisSameUpper(x, w, strides, dilations, a));
  }

  lemma PadsAgree(x: Tensor, w: Tensor, shape: seq<Option<nat>>, strides: seq<nat>, dilations: seq<nat>)
    requires Paddable(x, w, strides, dilations) && SamePads.AllKnown(shape, strides, dilations, |Spatial(w)|)
    requires |shape| == |x.dims| && forall a :: 0 <= a < |shape| && shape[a].Some? ==> x.dims[a] == shape[a].value
    ensures SameUpperPads(x, w, strides, dilations) == SamePads.PadsOf(shape, Spatial(w), strides, dilations)
  {
    forall a | 0 <= a < |strides|
      ensures AxisSameUpper(x, w, strides, dilations, a) == SamePads.PadsAt(shape, Spatial(w), strides, dilations, a)
    {
      assert SamePads.AxisKnown(shape, strides, dilations, a);
      AxisAgrees(x, w, shape, strides, dilations, a);
    }
  }

  /** What ONNX asks of a Conv: matching ranks, positive strides, dilations and kernel. */
  ghost predicate WellFormedConv(node: Node, end: Env) {
    IsSameUpperConv(node) && Reads(node, end) ==>
      && |node.inputs| >= 2 && |end[node.inputs[1]].dims| >= 2
      && var rank := |end[node.inputs[1]].dims| - 2;
         Paddable(end[node.inputs[0]], end[node.inputs[1]], SamePads.OrOnes(node.op.strides, rank),
                  SamePads.OrOnes(node.op.dilations, rank))
  }

  lemma ExplicitConv(m: Meaning, node: Node, shapes: Shapes, inits: Env, end: Env, i: nat)
    requires IsSameUpperConv(node) && Known(node, shapes, inits) && Reads(node, end) && WellFormedConv(node, end)
    requires ShapesHold(shapes, end) && Extends(inits, end)
    ensures Apply(m, Explicit(node, shapes, inits).op, Args(node, end), i) == Apply(m, node.op, Args(node, end), i)
  {
    var x, w := end[node.inputs[0]], end[node.inputs[1]];
    var rank := |w.dims| - 2;
    assert w == inits[node.inputs[1]] && |Spatial(w)| == rank;
    PadsAgree(x, w, shapes[node.inputs[0]], SamePads.OrOnes(node.op.strides, rank),
              SamePads.OrOnes(node.op.dilations, rank));
  }

  lemma ExplicitEquivalent(m: Meaning, node: Node, shapes: Shapes, inits: Env, end: Env)
    requires IsSameUpperConv(node) ==> Known(node, shapes, inits)
    requires WellFormedConv(node, end) && ShapesHold(shapes, end) && Extends(inits, end)
    ensures Equivalent(Onnx(m), node, Explicit(node, shapes, inits), end, map[])
  {
    var after := Explicit(node, shapes, inits);
    assert end + map[] == end;
    if IsSameUpperConv(node) && Reads(node, end) {
      assert Args(after, end) == Args(node, end);
      forall i | 0 <= i < |node.outputs|
        ensures Apply(m, after.op, Args(node, end), i) == Apply(m, node.op, Args(node, end), i)
      {
        ExplicitConv(m, node, shapes, inits, end, i);
      }
    }
  }

  /** Explicit pads change no value of the run. */
  lemma ExplicitPadsKeepValues(m: Meaning, nodes: seq<Node>, shapes: Shapes, inits: Env, env: Env)
    requires Run(Onnx(m), nodes, env).Some? && Extends(inits, env) && AllKnown(nodes, shapes, inits)
    requires ShapesHold(shapes, Run(Onnx(m), nodes, env).value)
    requires forall k :: 0 <= k < |nodes| ==> WellFormedConv(nodes[k], Run(Onnx(m), nodes, env).value)
    ensures Run(Onnx(m), ExplicitAll(nodes, shapes, inits), env) == Run(Onnx(m), nodes, env)
  {
    var end, after := Run(Onnx(m), nodes, env).value, ExplicitAll(nodes, shapes, inits);
    RunExtends(Onnx(m), nodes, env);
    forall k | 0 <= k < |nodes| ensures Equivalent(Onnx(m), nodes[k], after[k], end, map[]) {
      ExplicitEquivalent(m, nodes[k], shapes, inits, end);
    }
    ReplacedOneForOne(Onnx(m), nodes, after, env, map[]);
    assert env + map[] == env && end + map[] == end;
  }
}
