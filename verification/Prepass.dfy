/** The pre-pass: a model whose node list and initializers are rewritten in place. */
module Prepass {
  import opened Common
  import opened OnnxGraph
  import opened OnnxRun
  import opened DynamicMatmuls
  import QuantizeChain
  import SamePads
  import ConvPads
  import ReverseSlices
  import ProductSearch

  datatype PrepassError =
    | BadConv(conv: ConvPads.ConvError)
    | BadSlice(slice: ReverseSlices.SliceError)
    | BadMatmul(matmul: MatmulError)

  datatype Summary = Summary(explicitPads: nat, reverseSlices: nat, dynamicMatmuls: nat)

  method MakeExplicit(node: Node, shapes: Shapes, inits: Env) returns (r: Result<Node, ConvPads.ConvError>)
    requires ConvPads.IsSameUpperConv(node)
    ensures r.Ok? <==> ConvPads.Known(node, shapes, inits)
    ensures r.Ok? ==> r.value == ConvPads.Explicit(node, shapes, inits)
    ensures r.Err? ==> ConvPads.IsFault(node, shapes, inits, r.error)
  {
    if node.inputs == [] {
      return Err(ConvPads.NoInputs);
    }
    if node.inputs[0] !in shapes {
      return Err(ConvPads.NoShape);
    }
    if |node.inputs| < 2 {
      return Err(ConvPads.NoInputs);
    }
    if node.inputs[1] !in inits {
      return Err(ConvPads.NoKernel);
    }
    var pads := SamePads.ExplicitPads(shapes[node.inputs[0]], ConvPads.Spatial(inits[node.inputs[1]]), node.op.strides,
                                      node.op.dilations);
    if pads.Err? {
      return Err(ConvPads.Unpaddable(pads.error));
    }
    return Ok(node.(op := node.op.(autoPad := None, pads := Some(pads.value))));
  }

  lemma ConvStep(list: seq<Node>, shapes: Shapes, inits: Env, i: nat, nodes: seq<Node>)
    requires i < |list| && ConvPads.ConvsDone(list, shapes, inits, i, nodes)
    requires ConvPads.IsSameUpperConv(list[i]) ==> ConvPads.Known(list[i], shapes, inits)
    ensures ConvPads.ConvsDone(list, shapes, inits, i + 1, nodes[i := ConvPads.Explicit(list[i], shapes, inits)])
    ensures ConvPads.CountConvs(list[..i + 1])
            == ConvPads.CountConvs(list[..i]) + if ConvPads.IsSameUpperConv(list[i]) then 1 else 0
  {
    assert list[..i + 1][..i] == list[..i] && list[..i + 1][i] == list[i];
  }

  lemma ConvHere(list: seq<Node>, shapes: Shapes, inits: Env, i: nat, nodes: seq<Node>)
    requires i < |list| && ConvPads.ConvsDone(list, shapes, inits, i, nodes)
    ensures |nodes| == |list| && nodes[i] == list[i]
  {
  }

  lemma StopHere(list: seq<Node>, shapes: Shapes, inits: Env, i: nat, e: ConvPads.ConvError, nodes: seq<Node>)
    requires i < |list| && ConvPads.ConvsDone(list, shapes, inits, i, nodes) && ConvPads.IsSameUpperConv(list[i])
    requires ConvPads.IsFault(list[i], shapes, inits, e)
    ensures ConvPads.StoppedAt(list, shapes, inits, i, e, nodes) && !ConvPads.AllKnown(list, shapes, inits)
  {
    ConvPads.StoppedUnknown(list, shapes, inits, i, e, nodes);
  }

  /** What the loop makes of one node. */
  ghost predicate ConvFixed(before: seq<Node>, shapes: Shapes, inits: Env, i: nat, r: Result<nat, ConvPads.ConvError>,
                            after: seq<Node>)
    requires i < |before|
  {
    if !ConvPads.IsSameUpperConv(before[i]) then r == Ok(0) && after == before
    else if r.Ok? then
      && r.value == 1 && ConvPads.Known(before[i], shapes, inits)
      && after == before[i := ConvPads.Explicit(before[i], shapes, inits)]
    else after == before && ConvPads.IsFault(before[i], shapes, inits, r.error)
  }

  lemma FixedNext(list: seq<Node>, shapes: Shapes, inits: Env, i: nat, fixed: nat, before: seq<Node>,
                  r: Result<nat, ConvPads.ConvError>, after: seq<Node>)
    requires i < |list| == |before| && ConvPads.ConvLoop(list, shapes, inits, i, fixed, before)
    requires ConvFixed(before, shapes, inits, i, r, after)
    ensures r.Ok? ==> ConvPads.ConvLoop(list, shapes, inits, i + 1, fixed + r.value, after)
    ensures r.Err? ==> ConvPads.ConvsFixed(list, shapes, inits, r, after)
  {
    ConvHere(list, shapes, inits, i, before);
    if r.Ok? {
      ConvStep(list, shapes, inits, i, before);
      assert before[i := before[i]] == before;
    } else {
      StopHere(list, shapes, inits, i, r.error, before);
      assert ConvPads.StoppedAt(list, shapes, inits, i, r.error, after);
    }
  }

  lemma ConvsAll(list: seq<Node>, shapes: Shapes, inits: Env, fixed: nat, nodes: seq<Node>)
    requires ConvPads.ConvLoop(list, shapes, inits, |list|, fixed, nodes)
    ensures ConvPads.ConvsFixed(list, shapes, inits, Ok(fixed), nodes)
  {
    assert list[..|list|] == list;
    ConvPads.ExplicitAllExactly(list, shapes, inits);
  }

  lemma RewrittenGrows(nodes: seq<Node>, shapes: Shapes, inits: Env, i: nat)
    requires i < |nodes|
    ensures ReverseSlices.RewrittenAll(nodes[..i], shapes, inits) + [ReverseSlices.Rewritten(nodes[i], shapes, inits)]
            == ReverseSlices.RewrittenAll(nodes[..i + 1], shapes, inits)
    ensures nodes[..i + 1][..i] == nodes[..i] && nodes[..i + 1][i] == nodes[i]
  {
  }

  /** A slice that is rewritten is not among the nodes already dealt with. */
  lemma StillFirst(nodes: seq<Node>, shapes: Shapes, inits: Env, i: nat)
    requires i < |nodes| && ReverseSlices.Judge(nodes[i], shapes, inits).Reverse?
    ensures var all := ReverseSlices.RewrittenAll(nodes[..i], shapes, inits) + nodes[i..];
            nodes[i] in all && IndexOf(all, nodes[i]) == i
  {
    var front := ReverseSlices.RewrittenAll(nodes[..i], shapes, inits);
    var all := front + nodes[i..];
    assert nodes[i] !in front by {
      forall j | 0 <= j < i ensures front[j] != nodes[i] {
        assert front[j] == ReverseSlices.Rewritten(nodes[j], shapes, inits);
      }
    }
    assert all == front + [nodes[i]] + nodes[i + 1..];
    IndexAfter(front, nodes[i], nodes[i + 1..]);
  }

  lemma Regrouped(a: seq<Initializer>, b: seq<Initializer>, c: seq<Initializer>)
    ensures a + b + c == a + (b + c)
  {
  }

  /** The first `i` nodes of a list are dealt with. */
  ghost predicate SlicesDone(list: seq<Node>, shapes: Shapes, inits: Env, i: nat, nodes: seq<Node>,
                             added: seq<Initializer>)
    requires i <= |list|
  {
    && ReverseSlices.AllJudged(list[..i], shapes, inits)
    && nodes == ReverseSlices.RewrittenAll(list[..i], shapes, inits) + list[i..]
    && added == ReverseSlices.Added(list[..i], shapes, inits)
  }

  lemma KeepStep(list: seq<Node>, shapes: Shapes, inits: Env, i: nat, nodes: seq<Node>, added: seq<Initializer>)
    requires i < |list| && SlicesDone(list, shapes, inits, i, nodes, added)
    requires ReverseSlices.Judge(list[i], shapes, inits).Keep?
    ensures SlicesDone(list, shapes, inits, i + 1, nodes, added)
  {
    RewrittenGrows(list, shapes, inits, i);
    assert list[i..] == [list[i]] + list[i + 1..];
    assert added + [] == added;
  }

  lemma SwapNodes(list: seq<Node>, shapes: Shapes, inits: Env, i: nat, nodes: seq<Node>)
    requires i < |list| && nodes == ReverseSlices.RewrittenAll(list[..i], shapes, inits) + list[i..]
    ensures nodes[i := ReverseSlices.Rewritten(list[i], shapes, inits)]
            == ReverseSlices.RewrittenAll(list[..i + 1], shapes, inits) + list[i + 1..]
  {
    RewrittenGrows(list, shapes, inits, i);
  }

  lemma AddedGrows(list: seq<Node>, shapes: Shapes, inits: Env, i: nat)
    requires i < |list| && ReverseSlices.Judge(list[i], shapes, inits).Reverse?
    requires ReverseSlices.AllJudged(list[..i], shapes, inits)
    ensures ReverseSlices.AllJudged(list[..i + 1], shapes, inits)
    ensures ReverseSlices.Added(list[..i + 1], shapes, inits)
            == ReverseSlices.Added(list[..i], shapes, inits)
               + [ReverseSlices.Indices(list[i], ReverseSlices.Judge(list[i], shapes, inits).size)]
  {
    assert list[..i + 1][..i] == list[..i] && list[..i + 1][i] == list[i];
  }

  lemma SwapStep(list: seq<Node>, shapes: Shapes, inits: Env, i: nat, nodes: seq<Node>, added: seq<Initializer>)
    requires i < |list| && SlicesDone(list, shapes, inits, i, nodes, added)
    requires ReverseSlices.Judge(list[i], shapes, inits).Reverse?
    ensures list[i] in nodes && list[i].inputs != []
    ensures var v := ReverseSlices.Judge(list[i], shapes, inits);
            SlicesDone(list, shapes, inits, i + 1,
                       nodes[IndexOf(nodes, list[i]) := ReverseSlices.AsGather(list[i], v.axis)],
                       added + [ReverseSlices.Indices(list[i], v.size)])
  {
    AddedGrows(list, shapes, inits, i);
    StillFirst(list, shapes, inits, i);
    SwapNodes(list, shapes, inits, i, nodes);
  }

  /** The loop stopped at the first slice that cannot be judged, with the nodes before it done. */
  ghost predicate SlicesStopped(list: seq<Node>, shapes: Shapes, inits: Env, k: nat, e: ReverseSlices.SliceError,
                                nodes: seq<Node>, added: seq<Initializer>)
  {
    && k < |list| && SlicesDone(list, shapes, inits, k, nodes, added)
    && ReverseSlices.Judge(list[k], shapes, inits) == ReverseSlices.Fail(e)
  }

  // ---- all three passes ----------------------------------------------------------------------------

  function ExplicitNodes(nodes: seq<Node>, inits: seq<Initializer>, shapes: Shapes): (r: seq<Node>) {
    ConvPads.ExplicitAll(nodes, shapes, Table(inits))
  }

  function GatherNodes(nodes: seq<Node>, inits: seq<Initializer>, shapes: Shapes): (r: seq<Node>) {
    ReverseSlices.RewrittenAll(ExplicitNodes(nodes, inits, shapes), shapes, Table(inits))
  }

  function NewIndices(nodes: seq<Node>, inits: seq<Initializer>, shapes: Shapes): (r: seq<Initializer>) {
    ReverseSlices.Added(ExplicitNodes(nodes, inits, shapes), shapes, Table(inits))
  }

  /** What the third pass makes of the model that the first two leave. */
  function Multiplied(nodes: seq<Node>, inits: seq<Initializer>, shapes: Shapes): (r: Outcome) {
    var gathered := GatherNodes(nodes, inits, shapes);
    RewriteAll(gathered, inits + NewIndices(nodes, inits, shapes), Quantizers(gathered), 0)
  }

  /** The first two passes go through. */
  predicate Preparable(nodes: seq<Node>, inits: seq<Initializer>, shapes: Shapes) {
    && ConvPads.AllKnown(nodes, shapes, Table(inits))
    && ReverseSlices.AllJudged(ExplicitNodes(nodes, inits, shapes), shapes, Table(inits))
  }

  /** What the pre-pass answers and leaves behind, for the model that it was given. */
  ghost predicate Leaves(given: Rewrite, shapes: Shapes, r: Result<Summary, PrepassError>, left: Rewrite) {
    match r
    case Ok(summary) =>
      && Preparable(given.nodes, given.inits, shapes)
      && Multiplied(given.nodes, given.inits, shapes) == Outcome(left, None)
      && summary.explicitPads == ConvPads.CountConvs(given.nodes)
      && summary.reverseSlices == |NewIndices(given.nodes, given.inits, shapes)|
      && summary.dynamicMatmuls == |Quantizers(GatherNodes(given.nodes, given.inits, shapes))|
    case Err(BadConv(e)) =>
      && left.inits == given.inits
      && exists k :: ConvPads.StoppedAt(given.nodes, shapes, Table(given.inits), k, e, left.nodes)
    case Err(BadSlice(e)) =>
      && ConvPads.AllKnown(given.nodes, shapes, Table(given.inits))
      && var padded := ExplicitNodes(given.nodes, given.inits, shapes);
         exists k, added ::
           && SlicesStopped(padded, shapes, Table(given.inits), k, e, left.nodes, added)
           && left.inits == given.inits + added
    case Err(BadMatmul(e)) =>
      && Preparable(given.nodes, given.inits, shapes)
      && Multiplied(given.nodes, given.inits, shapes) == Outcome(left, Some(e))
  }

  lemma LeavesAtConv(given: Rewrite, shapes: Shapes, e: ConvPads.ConvError, nodes: seq<Node>)
    requires exists k :: ConvPads.StoppedAt(given.nodes, shapes, Table(given.inits), k, e, nodes)
    ensures Leaves(given, shapes, Err(BadConv(e)), Rewrite(nodes, given.inits))
  {
  }

  lemma LeavesAtSlice(given: Rewrite, shapes: Shapes, e: ReverseSlices.SliceError, left: Rewrite)
    requires ConvPads.AllKnown(given.nodes, shapes, Table(given.inits))
    requires exists k, added ::
               SlicesStopped(ExplicitNodes(given.nodes, given.inits, shapes), shapes, Table(given.inits), k, e,
                             left.nodes, added)
               && left.inits == given.inits + added
    ensures Leaves(given, shapes, Err(BadSlice(e)), left)
  {
  }

  lemma LeavesAtMatmul(given: Rewrite, shapes: Shapes, e: MatmulError, left: Rewrite)
    requires Preparable(given.nodes, given.inits, shapes)
    requires Multiplied(given.nodes, given.inits, shapes) == Outcome(left, Some(e))
    ensures Leaves(given, shapes, Err(BadMatmul(e)), left)
  {
  }

  lemma LeavesDone(given: Rewrite, shapes: Shapes, pads: nat, slices: nat, products: nat, left: Rewrite)
    requires Preparable(given.nodes, given.inits, shapes)
    requires Multiplied(given.nodes, given.inits, shapes) == Outcome(left, None)
    requires pads == ConvPads.CountConvs(given.nodes) && slices == |NewIndices(given.nodes, given.inits, shapes)|
    requires products == |Quantizers(GatherNodes(given.nodes, given.inits, shapes))|
    ensures Leaves(given, shapes, Ok(Summary(pads, slices, products)), left)
  {
  }

  class Model {
    var nodes: seq<Node>
    var initializers: seq<Initializer>

    constructor (ns: seq<Node>, inits: seq<Initializer>)
      ensures nodes == ns && initializers == inits
    {
      nodes, initializers := ns, inits;
    }

    /** One node of the loop: rewritten in its place, left alone, or a fault. */
    method FixConv(i: nat, shapes: Shapes, inits: Env) returns (r: Result<nat, ConvPads.ConvError>)
      requires i < |nodes|
      modifies this`nodes
      ensures ConvFixed(old(nodes), shapes, inits, i, r, nodes)
    {
      if !ConvPads.IsSameUpperConv(nodes[i]) {
        return Ok(0);
      }
      var made := MakeExplicit(nodes[i], shapes, inits);
      if made.Err? {
        return Err(made.error);
      }
      nodes := nodes[i := made.value];
      return Ok(1);
    }

    method FixSameUpper(shapes: Shapes, inits: Env) returns (r: Result<nat, ConvPads.ConvError>)
      modifies this`nodes
      ensures ConvPads.ConvsFixed(old(nodes), shapes, inits, r, nodes)
    {
      ghost var was := nodes;
      var fixed: nat, i: nat := 0, 0;
      while i < |nodes|
        invariant |nodes| == |was| && i <= |was| && ConvPads.ConvLoop(was, shapes, inits, i, fixed, nodes)
      {
        ghost var before := nodes;
        var done := FixConv(i, shapes, inits);
        FixedNext(was, shapes, inits, i, fixed, before, done, nodes);
        if done.Err? {
          return Err(done.error);
        }
        fixed, i := fixed + done.value, i + 1;
      }
      ConvsAll(was, shapes, inits, fixed, nodes);
      return Ok(fixed);
    }

    method Replace(node: Node, other: Node)
      requires node in nodes
      modifies this`nodes
      ensures nodes == old(nodes)[IndexOf(old(nodes), node) := other]
    {
      var position := IndexOf(nodes, node);
      nodes := nodes[..position] + nodes[position + 1..];
      nodes := nodes[..position] + [other] + nodes[position..];
    }

    method FixReverseSlices(shapes: Shapes, inits: Env) returns (r: Result<nat, ReverseSlices.SliceError>)
      modifies this
      ensures r.Ok? <==> ReverseSlices.AllJudged(old(nodes), shapes, inits)
      ensures r.Ok? <==> ReverseSlices.NoneBroken(old(nodes), shapes, inits)
      ensures r.Ok? ==> ReverseSlices.SlicesGone(old(nodes), shapes, inits, nodes)
      ensures r.Ok? ==> exists at, added ::
                initializers == old(initializers) + added
                && ReverseSlices.PositionsOfAll(old(nodes), shapes, inits, at, added) && r.value == |at|
      ensures r.Ok? ==> nodes == ReverseSlices.RewrittenAll(old(nodes), shapes, inits)
                        && initializers == old(initializers) + ReverseSlices.Added(old(nodes), shapes, inits)
                        && r.value == |ReverseSlices.Added(old(nodes), shapes, inits)|
      ensures r.Err? ==> exists k, added :: SlicesStopped(old(nodes), shapes, inits, k, r.error, nodes, added)
                                            && initializers == old(initializers) + added
    {
      var list, rewritten := nodes, 0;
      ghost var before, added := initializers, [];
      for i := 0 to |list|
        invariant SlicesDone(list, shapes, inits, i, nodes, added)
        invariant initializers == before + added && rewritten == |added|
      {
        var node := list[i];
        var verdict := ReverseSlices.Judge(node, shapes, inits);
        match verdict
        case Fail(error) =>
          assert SlicesStopped(list, shapes, inits, i, error, nodes, added);
          ReverseSlices.SlicesExactly(list, shapes, inits);
          return Err(error);
        case Keep =>
          KeepStep(list, shapes, inits, i, nodes, added);
        case Reverse(axis, size) =>
          SwapStep(list, shapes, inits, i, nodes, added);
          var indices := ReverseSlices.Indices(node, size);
          Regrouped(before, added, [indices]);
          added := added + [indices];
          initializers := initializers + [indices];
          Replace(node, ReverseSlices.AsGather(node, axis));
          rewritten := rewritten + 1;
      }
      assert list[..|list|] == list;
      ReverseSlices.SlicesExactly(list, shapes, inits);
      ghost var at := ReverseSlices.AddedExactly(list, shapes, inits);
      return Ok(rewritten);
    }

    /** One dynamic product, as far as it gets. */
    method RewriteProduct(dql: Node, rewritten: nat) returns (failure: Option<MatmulError>)
      modifies this
      ensures Outcome(Rewrite(nodes, initializers), failure)
              == RewriteOne(old(nodes), old(initializers), dql, rewritten)
    {
      var found := SiteOf(nodes, Table(initializers), dql);
      if found.Err? {
        return Some(found.error);
      }
      var site := found.value;
      initializers := initializers + NewInitializers(rewritten, site);
      if site.cast.outputs == [] {
        return Some(BadArity);
      }
      var chain := QuantizeChain.Chain(rewritten, dql.inputs[0], dql.outputs[1], dql.outputs[2], site.cast.outputs[0]);
      if dql !in nodes {
        return Some(NotInGraph);
      }
      var index := IndexOf(nodes, dql);
      nodes := Removed(nodes, dql);
      nodes := Removed(nodes, site.product);
      nodes := Removed(nodes, site.cast);
      nodes := Spliced(nodes, index, chain);
      return None;
    }

    method RewriteDynamicMatmuls() returns (r: Result<nat, MatmulError>)
      modifies this
      ensures RewriteAll(old(nodes), old(initializers), Quantizers(old(nodes)), 0)
              == Outcome(Rewrite(nodes, initializers), if r.Ok? then None else Some(r.error))
      ensures r.Ok? ==> r.value == |Quantizers(old(nodes))|
      ensures r.Ok? ==> forall n :: n in nodes ==> n.op != DynamicQuantizeLinear
    {
      ghost var given, inits := nodes, initializers;
      var list := Quantizers(nodes);
      ghost var all := RewriteAll(nodes, initializers, list, 0);
      for rewritten := 0 to |list|
        invariant RewriteAll(nodes, initializers, list[rewritten..], rewritten) == all
      {
        assert list[rewritten..][0] == list[rewritten] && list[rewritten..][1..] == list[rewritten + 1..];
        var failure := RewriteProduct(list[rewritten], rewritten);
        if failure.Some? {
          return Err(failure.value);
        }
      }
      forall n | n in nodes ensures n.op != DynamicQuantizeLinear {
        ProductSearch.NoneLeft(given, inits, n);
      }
      return Ok(|list|);
    }

    /** The three passes in order; a pass that fails stops the pre-pass and leaves the model as far as it got. */
    method Prepass(shapes: Shapes) returns (r: Result<Summary, PrepassError>)
      modifies this
      ensures Leaves(Rewrite(old(nodes), old(initializers)), shapes, r, Rewrite(nodes, initializers))
    {
      ghost var given := Rewrite(nodes, initializers);
      var inits := Table(initializers);
      var pads := FixSameUpper(shapes, inits);
      if pads.Err? {
        LeavesAtConv(given, shapes, pads.error, nodes);
        return Err(BadConv(pads.error));
      }
      assert nodes == ExplicitNodes(given.nodes, given.inits, shapes);
      var slices := FixReverseSlices(shapes, inits);
      if slices.Err? {
        LeavesAtSlice(given, shapes, slices.error, Rewrite(nodes, initializers));
        return Err(BadSlice(slices.error));
      }
      assert nodes == GatherNodes(given.nodes, given.inits, shapes);
      assert initializers == given.inits + NewIndices(given.nodes, given.inits, shapes);
      ghost var all := RewriteAll(nodes, initializers, Quantizers(nodes), 0);
      assert all == Multiplied(given.nodes, given.inits, shapes);
      var matmuls := RewriteDynamicMatmuls();
      if matmuls.Err? {
        LeavesAtMatmul(given, shapes, matmuls.error, Rewrite(nodes, initializers));
        return Err(BadMatmul(matmuls.error));
      }
      LeavesDone(given, shapes, pads.value, slices.value, matmuls.value, Rewrite(nodes, initializers));
      return Ok(Summary(pads.value, slices.value, matmuls.value));
    }
  }
}
