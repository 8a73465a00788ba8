/** A Slice that runs an axis backwards becomes a Gather over the reversed positions of that axis. */
module ReverseSlices {
  import opened Common
  import opened OnnxGraph
  import opened OnnxRun
  import opened Strided
  import opened Tensors

  const INT_MIN_BOUND: int := -0x4000_0000_0000_0000

  datatype SliceError = BadEnds | BadAxes | NoShape | NoSuchAxis | DynamicAxis

  datatype Verdict = Keep | Reverse(axis: int, size: nat) | Fail(error: SliceError)

  predicate IsMinusOne(t: Tensor) {
    t.dims == [1] && t.data == [-1.0]
  }

  predicate NonEmptyList(t: Tensor) {
    IsList(t) && t.data != []
  }

  /** A Slice whose bounds are all initializers. */
  predicate ConstantSlice(node: Node, inits: Env) {
    node.op.Slice? && |node.inputs| >= 5 && forall i :: 1 <= i < 5 ==> node.inputs[i] in inits
  }

  function SizeAlong(node: Node, shapes: Shapes, axis: int): (v: Verdict)
    requires node.inputs != []
  {
    if node.inputs[0] !in shapes then Fail(NoShape)
    else
      var shape := shapes[node.inputs[0]];
      if !(-|shape| <= axis < |shape|) then Fail(NoSuchAxis)
      else
        var size := shape[if axis < 0 then axis + |shape| else axis];
        if size.None? || size.value == 0 then Fail(DynamicAxis) else Reverse(axis, size.value)
  }

  function Judge(node: Node, shapes: Shapes, inits: Env): (v: Verdict) {
    if !ConstantSlice(node, inits) then Keep
    else
      var starts, ends := inits[node.inputs[1]], inits[node.inputs[2]];
      var axes, steps := inits[node.inputs[3]], inits[node.inputs[4]];
      if !IsMinusOne(steps) || !IsMinusOne(starts) then Keep
      else if !NonEmptyList(ends) then Fail(BadEnds)
      else if ends.data[0] > INT_MIN_BOUND as real then Keep
      else if !NonEmptyList(axes) then Fail(BadAxes)
      else SizeAlong(node, shapes, axes.data[0].Floor)
  }

  function Backwards(size: nat): (r: seq<real>)
    ensures |r| == size
  {
    seq(size, i requires 0 <= i < size => (size - 1 - i) as real)
  }

  function Indices(node: Node, size: nat): (i: Initializer) {
    Initializer(ReverseIndices(node.name), Tensor([size], Backwards(size)))
  }

  function AsGather(node: Node, axis: int): (n: Node)
    requires node.inputs != []
  {
    Node(Gather(axis), node.name + "_as_gather", [node.inputs[0], ReverseIndices(node.name)], node.outputs)
  }

  function Rewritten(node: Node, shapes: Shapes, inits: Env): (n: Node) {
    var v := Judge(node, shapes, inits);
    if v.Reverse? then AsGather(node, v.axis) else node
  }

  function RewrittenAll(nodes: seq<Node>, shapes: Shapes, inits: Env): (r: seq<Node>)
    ensures |r| == |nodes|
  {
    seq(|nodes|, i requires 0 <= i < |nodes| => Rewritten(nodes[i], shapes, inits))
  }

  function Added(nodes: seq<Node>, shapes: Shapes, inits: Env): (r: seq<Initializer>) {
    if nodes == [] then []
    else
      var last := nodes[|nodes| - 1];
      var v := Judge(last, shapes, inits);
      Added(nodes[..|nodes| - 1], shapes, inits) + if v.Reverse? then [Indices(last, v.size)] else []
  }

  predicate AllJudged(nodes: seq<Node>, shapes: Shapes, inits: Env) {
    forall i :: 0 <= i < |nodes| ==> !Judge(nodes[i], shapes, inits).Fail?
  }

  // ---- which slices, read off the node -------------------------------------------------------------

  /** The four bounds are constants, and a step of -1 starts at the last position. */
  ghost predicate FromTheEnd(node: Node, inits: Env) {
    && node.op == Slice && |node.inputs| >= 5
    && node.inputs[1] in inits && node.inputs[2] in inits && node.inputs[3] in inits && node.inputs[4] in inits
    && inits[node.inputs[1]] == Tensor([1], [-1.0]) && inits[node.inputs[4]] == Tensor([1], [-1.0])
  }

  /** The tensor is a list that starts with this number. */
  ghost predicate StartsWith(t: Tensor, x: real) {
    |t.data| > 0 && t.dims == [|t.data|] && t.data[0] == x
  }

  /** The length of an axis, counted from the front or from the back. */
  ghost predicate HasLength(shape: seq<Option<nat>>, axis: int, size: nat) {
    exists at: nat :: at < |shape| && (axis == at || axis == at - |shape|) && shape[at] == Some(size)
  }

  /** The end bound lies at or before -2^62. */
  ghost predicate EndsFarOut(node: Node, inits: Env)
    requires FromTheEnd(node, inits)
  {
    exists end :: StartsWith(inits[node.inputs[2]], end) && end <= -4611686018427387904.0
  }

  /** A Slice that runs the whole of an axis of this length backwards. */
  ghost predicate FullReverse(node: Node, shapes: Shapes, inits: Env, axis: int, size: nat) {
    && FromTheEnd(node, inits) && EndsFarOut(node, inits)
    && (exists x: real :: StartsWith(inits[node.inputs[3]], x) && x.Floor == axis)
    && node.inputs[0] in shapes && HasLength(shapes[node.inputs[0]], axis, size) && size > 0
  }

  /** What is missing from a Slice that steps back from the last position. */
  ghost predicate Broken(node: Node, shapes: Shapes, inits: Env, e: SliceError) {
    && FromTheEnd(node, inits)
    && var ends, axes := inits[node.inputs[2]], inits[node.inputs[3]];
       if e.BadEnds? then !exists end :: StartsWith(ends, end)
       else
         && EndsFarOut(node, inits)
         && if e.BadAxes? then !exists x :: StartsWith(axes, x)
            else exists x: real :: StartsWith(axes, x) && NoLength(node.inputs[0], shapes, x.Floor, e)
  }

  /** The shape is unknown, has no such axis, or does not fix a length of at least one. */
  ghost predicate NoLength(input: Name, shapes: Shapes, axis: int, e: SliceError) {
    match e
    case NoShape => input !in shapes
    case NoSuchAxis => input in shapes && !(-|shapes[input]| <= axis < |shapes[input]|)
    case DynamicAxis =>
      && input in shapes && -|shapes[input]| <= axis < |shapes[input]|
      && !exists n: nat :: n > 0 && HasLength(shapes[input], axis, n)
    case _ => false
  }

  /** A node that reverses a whole axis. */
  ghost predicate ReversesAxis(node: Node, shapes: Shapes, inits: Env) {
    exists axis, size :: FullReverse(node, shapes, inits, axis, size)
  }

  /** Along the axis: a length, or the reason why there is none. */
  lemma SizeExactly(node: Node, shapes: Shapes, axis: int, size: nat, e: SliceError)
    requires node.inputs != []
    ensures SizeAlong(node, shapes, axis) == Reverse(axis, size)
            <==> node.inputs[0] in shapes && HasLength(shapes[node.inputs[0]], axis, size) && size > 0
    ensures SizeAlong(node, shapes, axis) == Fail(e) <==> NoLength(node.inputs[0], shapes, axis, e)
    ensures SizeAlong(node, shapes, axis).Reverse? ==> SizeAlong(node, shapes, axis).axis == axis
  {
    if node.inputs[0] in shapes {
      var shape := shapes[node.inputs[0]];
      if -|shape| <= axis < |shape| {
        var at := if axis < 0 then axis + |shape| else axis;
        assert forall n: nat :: HasLength(shape, axis, n) <==> shape[at] == Some(n);
      }
    }
  }

  /** A slice is reversed, or found broken, exactly when it looks so. */
  lemma JudgedExactly(node: Node, shapes: Shapes, inits: Env, axis: int, size: nat, e: SliceError)
    ensures Judge(node, shapes, inits) == Reverse(axis, size) <==> FullReverse(node, shapes, inits, axis, size)
    ensures Judge(node, shapes, inits) == Fail(e) <==> Broken(node, shapes, inits, e)
  {
    assert FromTheEnd(node, inits) <==>
           ConstantSlice(node, inits) && IsMinusOne(inits[node.inputs[1]]) && IsMinusOne(inits[node.inputs[4]]);
    if FromTheEnd(node, inits) {
      var ends, axes := inits[node.inputs[2]], inits[node.inputs[3]];
      ListStarts(ends);
      ListStarts(axes);
      if NonEmptyList(axes) {
        SizeExactly(node, shapes, axes.data[0].Floor, size, e);
      }
    }
  }

  lemma ListStarts(t: Tensor)
    ensures NonEmptyList(t) <==> exists x :: StartsWith(t, x)
    ensures NonEmptyList(t) ==> StartsWith(t, t.data[0])
  {
    if NonEmptyList(t) {
      assert StartsWith(t, t.data[0]);
    }
  }

  /** The Gather over the axis in place of a Slice that reverses it; any other node as it was. */
  ghost predicate SliceGone(node: Node, shapes: Shapes, inits: Env, after: Node) {
    && (!ReversesAxis(node, shapes, inits) ==> after == node)
    && forall axis, size :: FullReverse(node, shapes, inits, axis, size) ==>
         after == Node(Gather(axis), node.name + "_as_gather", [node.inputs[0], ReverseIndices(node.name)],
                       node.outputs)
  }

  /** The positions `size - 1` down to 0, under the name that the Gather of this node reads. */
  ghost predicate PositionsOf(node: Node, size: nat, added: Initializer) {
    && added.name == ReverseIndices(node.name) && added.value.dims == [size] && |added.value.data| == size
    && forall p :: 0 <= p < size ==> added.value.data[p] == (size - 1 - p) as real
  }

  ghost predicate PositionsFor(node: Node, shapes: Shapes, inits: Env, added: Initializer) {
    forall axis, size :: FullReverse(node, shapes, inits, axis, size) ==> PositionsOf(node, size, added)
  }

  /** One list of positions for each slice that reverses an axis, in the order of the nodes. */
  ghost predicate PositionsOfAll(nodes: seq<Node>, shapes: Shapes, inits: Env, at: seq<nat>, added: seq<Initializer>) {
    && |at| == |added| && (forall j, k :: 0 <= j < k < |at| ==> at[j] < at[k])
    && (forall j :: 0 <= j < |at| ==> at[j] < |nodes| && ReversesAxis(nodes[at[j]], shapes, inits))
    && (forall i :: 0 <= i < |nodes| && ReversesAxis(nodes[i], shapes, inits) ==> i in at)
    && forall j :: 0 <= j < |at| ==> PositionsFor(nodes[at[j]], shapes, inits, added[j])
  }

  lemma ReversesExactly(node: Node, shapes: Shapes, inits: Env)
    ensures Judge(node, shapes, inits).Reverse? <==> ReversesAxis(node, shapes, inits)
    ensures Judge(node, shapes, inits).Fail? <==> exists e :: Broken(node, shapes, inits, e)
  {
    var v := Judge(node, shapes, inits);
    if v.Reverse? {
      JudgedExactly(node, shapes, inits, v.axis, v.size, BadEnds);
    }
    if v.Fail? {
      JudgedExactly(node, shapes, inits, 0, 0, v.error);
    }
    if axis, size :| FullReverse(node, shapes, inits, axis, size) {
      JudgedExactly(node, shapes, inits, axis, size, BadEnds);
    }
    if e :| Broken(node, shapes, inits, e) {
      JudgedExactly(node, shapes, inits, 0, 0, e);
    }
  }

  lemma RewrittenExactly(node: Node, shapes: Shapes, inits: Env)
    ensures SliceGone(node, shapes, inits, Rewritten(node, shapes, inits))
    ensures !ReversesAxis(Rewritten(node, shapes, inits), shapes, inits)
  {
    ReversesExactly(node, shapes, inits);
    forall axis, size | FullReverse(node, shapes, inits, axis, size)
      ensures Judge(node, shapes, inits) == Reverse(axis, size)
    {
      JudgedExactly(node, shapes, inits, axis, size, BadEnds);
    }
  }

  lemma IndicesExactly(node: Node, shapes: Shapes, inits: Env)
    requires Judge(node, shapes, inits).Reverse?
    ensures PositionsFor(node, shapes, inits, Indices(node, Judge(node, shapes, inits).size))
  {
    forall axis, size | FullReverse(node, shapes, inits, axis, size)
      ensures size == Judge(node, shapes, inits).size
    {
      JudgedExactly(node, shapes, inits, axis, size, BadEnds);
    }
  }

  lemma PositionsKept(nodes: seq<Node>, last: Node, shapes: Shapes, inits: Env, at: seq<nat>, added: seq<Initializer>)
    requires PositionsOfAll(nodes, shapes, inits, at, added) && !ReversesAxis(last, shapes, inits)
    ensures PositionsOfAll(nodes + [last], shapes, inits, at, added)
  {
  }

  lemma PositionsGrow(nodes: seq<Node>, last: Node, shapes: Shapes, inits: Env, at: seq<nat>, added: seq<Initializer>,
                      positions: Initializer)
    requires PositionsOfAll(nodes, shapes, inits, at, added) && ReversesAxis(last, shapes, inits)
    requires PositionsFor(last, shapes, inits, positions)
    ensures PositionsOfAll(nodes + [last], shapes, inits, at + [|nodes|], added + [positions])
  {
    var all, places, more := nodes + [last], at + [|nodes|], added + [positions];
    forall j | 0 <= j < |places| ensures PositionsFor(all[places[j]], shapes, inits, more[j]) {
      if j < |at| {
        assert all[places[j]] == nodes[at[j]];
      }
    }
    assert places[|at|] == |nodes|;
  }

  lemma {:induction false} AddedExactly(nodes: seq<Node>, shapes: Shapes, inits: Env) returns (at: seq<nat>)
    ensures PositionsOfAll(nodes, shapes, inits, at, Added(nodes, shapes, inits))
  {
    at := [];
    if nodes != [] {
      var n := |nodes| - 1;
      var init, last := nodes[..n], nodes[n];
      at := AddedExactly(init, shapes, inits);
      var added, v := Added(init, shapes, inits), Judge(last, shapes, inits);
      assert nodes == init + [last] && added + [] == added;
      ReversesExactly(last, shapes, inits);
      if v.Reverse? {
        IndicesExactly(last, shapes, inits);
        PositionsGrow(init, last, shapes, inits, at, added, Indices(last, v.size));
        at := at + [n];
      } else {
        PositionsKept(init, last, shapes, inits, at, added);
      }
    }
  }

  ghost predicate NoneBroken(nodes: seq<Node>, shapes: Shapes, inits: Env) {
    forall i, e :: 0 <= i < |nodes| ==> !Broken(nodes[i], shapes, inits, e)
  }

  /** Each slice that reverses a whole axis has become its Gather, and none is left. */
  ghost predicate SlicesGone(nodes: seq<Node>, shapes: Shapes, inits: Env, after: seq<Node>) {
    && |after| == |nodes|
    && forall i :: 0 <= i < |nodes| ==>
         SliceGone(nodes[i], shapes, inits, after[i]) && !ReversesAxis(after[i], shapes, inits)
  }

  lemma SlicesExactly(nodes: seq<Node>, shapes: Shapes, inits: Env)
    ensures AllJudged(nodes, shapes, inits) <==> NoneBroken(nodes, shapes, inits)
    ensures SlicesGone(nodes, shapes, inits, RewrittenAll(nodes, shapes, inits))
  {
    forall i | 0 <= i < |nodes|
      ensures Judge(nodes[i], shapes, inits).Fail? <==> exists e :: Broken(nodes[i], shapes, inits, e)
      ensures SliceGone(nodes[i], shapes, inits, Rewritten(nodes[i], shapes, inits))
      ensures !ReversesAxis(Rewritten(nodes[i], shapes, inits), shapes, inits)
    {
      ReversesExactly(nodes[i], shapes, inits);
      RewrittenExactly(nodes[i], shapes, inits);
    }
  }

  // ---- the reversed positions ----------------------------------------------------------------------

  function Countdown(at: int): (r: seq<int>)
    requires at >= -1
    ensures |r| == at + 1 && forall i :: 0 <= i <= at ==> r[i] == at - i
    ensures Within(r, at + 1)
  {
    seq(at + 1, i requires 0 <= i < at + 1 => at - i)
  }

  lemma {:induction false} StepsDown(at: int, end: int)
    requires end <= at
    ensures |Steps(at, end, -1)| == at - end
    ensures forall i :: 0 <= i < at - end ==> Steps(at, end, -1)[i] == at - i
    decreases at - end
  {
    if end < at {
      StepsDown(at - 1, end);
    }
  }

  /** A Slice from -1 by -1 runs the whole axis backwards exactly when its end lies before the axis. */
  lemma WholeAxisExactly(n: nat, end: int)
    requires n > 0
    ensures SlicePicks(n, -1, end, -1) == Countdown(n - 1) <==> n < -end
  {
    var stop := Clamp(FromEnd(end, n), -1, n - 1);
    StepsDown(n - 1, stop);
    assert stop == -1 <==> n < -end;
    assert |SlicePicks(n, -1, end, -1)| == n - 1 - stop;
  }

  lemma GatherBackwards(n: nat)
    requires n > 0
    ensures GatherPicks(n, Backwards(n)) == Countdown(n - 1)
  {
  }

  function Reversed(t: Tensor, axis: nat): (r: Tensor)
    requires axis < |t.dims| && t.dims[axis] > 0
  {
    Selected(t, axis, Countdown(t.dims[axis] - 1))
  }

  function Mirrored(dims: seq<nat>, axis: nat, index: seq<nat>): (r: seq<nat>)
    requires axis < |dims| == |index| && forall k :: 0 <= k < |dims| ==> index[k] < dims[k]
    ensures |r| == |dims| && forall k :: 0 <= k < |dims| ==> r[k] < dims[k]
  {
    index[axis := dims[axis] - 1 - index[axis]]
  }

  lemma MirroredTwice(dims: seq<nat>, axis: nat, index: seq<nat>)
    requires axis < |dims| == |index| && forall k :: 0 <= k < |dims| ==> index[k] < dims[k]
    ensures Mirrored(dims, axis, Mirrored(dims, axis, index)) == index
  {
  }

  lemma ReversedShape(t: Tensor, axis: nat)
    requires axis < |t.dims| && Full(t)
    ensures Reversed(t, axis).dims == t.dims && Full(Reversed(t, axis))
  {
    assert t.dims[axis := t.dims[axis]] == t.dims;
  }

  lemma PickedMirror(dims: seq<nat>, axis: nat, index: seq<nat>)
    requires axis < |dims| == |index| && forall k :: 0 <= k < |dims| ==> index[k] < dims[k]
    ensures index[axis := Countdown(dims[axis] - 1)[index[axis]]] == Mirrored(dims, axis, index)
  {
  }

  /** The element at an index comes from the mirrored index. */
  lemma ReversedElement(t: Tensor, axis: nat, p: nat)
    requires axis < |t.dims| && Full(t) && p < |t.data| == |Reversed(t, axis).data|
    ensures var at := RowMajor(t.dims, Mirrored(t.dims, axis, Digits(t.dims, p)));
            at < |t.data| && Reversed(t, axis).data[p] == t.data[at]
  {
    var index := Digits(t.dims, p);
    assert t.dims[axis := t.dims[axis]] == t.dims;
    SelectedElement(t, axis, Countdown(t.dims[axis] - 1), t.dims, p);
    PickedMirror(t.dims, axis, index);
    RowMajorDigits(t.dims, Mirrored(t.dims, axis, index));
  }

  /** Reversing an axis twice gives the tensor back. */
  lemma ReversedTwice(t: Tensor, axis: nat)
    requires axis < |t.dims| && Full(t)
    ensures Reversed(t, axis).dims == t.dims && Reversed(Reversed(t, axis), axis) == t
  {
    ReversedShape(t, axis);
    var once := Reversed(t, axis);
    ReversedShape(once, axis);
    var twice := Reversed(once, axis);
    forall p | 0 <= p < |t.data| ensures twice.data[p] == t.data[p] {
      TwiceElement(t, once, twice, axis, p);
    }
  }

  lemma TwiceElement(t: Tensor, once: Tensor, twice: Tensor, axis: nat, p: nat)
    requires axis < |t.dims| && Full(t) && once == Reversed(t, axis) && once.dims == t.dims && |once.data| == |t.data|
    requires twice == Reversed(once, axis) && |twice.data| == |t.data| && p < |t.data|
    ensures twice.data[p] == t.data[p]
  {
    var index := Digits(t.dims, p);
    var mirrored := Mirrored(t.dims, axis, index);
    var at := RowMajor(t.dims, mirrored);
    assert at < |t.data| && twice.data[p] == once.data[at] by {
      ReversedElement(once, axis, p);
    }
    RowMajorDigits(t.dims, mirrored);
    MirroredTwice(t.dims, axis, index);
    DigitsAreRowMajor(t.dims, p);
    assert once.data[at] == t.data[p] by {
      ReversedElement(t, axis, at);
    }
  }

  // ---- values --------------------------------------------------------------------------------------

  /** ONNX wants as many ends and axes as starts; the axis must end before the end bound. */
  ghost predicate Reversible(node: Node, shapes: Shapes, inits: Env) {
    var v := Judge(node, shapes, inits);
    v.Reverse? ==>
      && |node.inputs| == 5
      && inits[node.inputs[2]].dims == [1] && inits[node.inputs[3]].dims == [1]
      && v.size < -inits[node.inputs[2]].data[0].Floor
  }

  lemma SmallAxesReversible(node: Node, shapes: Shapes, inits: Env)
    requires var v := Judge(node, shapes, inits);
             v.Reverse? ==> |node.inputs| == 5 && inits[node.inputs[2]].dims == [1] && inits[node.inputs[3]].dims == [1]
                            && v.size < -INT_MIN_BOUND
    ensures Reversible(node, shapes, inits)
  {
  }

  ghost predicate OwnIndices(node: Node, shapes: Shapes, inits: Env, extra: Env) {
    var v := Judge(node, shapes, inits);
    v.Reverse? ==> ReverseIndices(node.name) in extra && extra[ReverseIndices(node.name)] == Indices(node, v.size).value
  }

  lemma SliceApplied(m: Meaning, args: seq<Tensor>, i: nat)
    requires OneAxisSlice(args) && IsMinusOne(args[1]) && IsMinusOne(args[4])
    ensures var axis := AxisOf(args[0], args[3].data[0].Floor);
            var picks := SlicePicks(args[0].dims[axis], -1, args[2].data[0].Floor, -1);
            Within(picks, args[0].dims[axis]) && Apply(m, Slice, args, i) == Selected(args[0], axis, picks)
  {
    var axis := AxisOf(args[0], args[3].data[0].Floor);
    SlicePicksWithin(args[0].dims[axis], -1, args[2].data[0].Floor, -1);
  }

  lemma GatherApplied(m: Meaning, x: Tensor, axis: int, size: nat, i: nat)
    requires IsAxis(x, axis) && x.dims[AxisOf(x, axis)] == size > 0
    ensures Apply(m, Gather(axis), [x, Tensor([size], Backwards(size))], i)
            == Selected(x, AxisOf(x, axis), Countdown(size - 1))
  {
    GatherBackwards(size);
  }

  /** The arguments of a slice that is to be reversed. */
  lemma ReversedArgs(node: Node, shapes: Shapes, inits: Env, end: Env)
    requires Reversible(node, shapes, inits) && ShapesHold(shapes, end) && Extends(inits, end) && Reads(node, end)
    requires Judge(node, shapes, inits).Reverse?
    ensures var args, v := Args(node, end), Judge(node, shapes, inits);
            && OneAxisSlice(args) && IsMinusOne(args[1]) && IsMinusOne(args[4]) && args[3].data[0].Floor == v.axis
            && args[0].dims[AxisOf(args[0], v.axis)] == v.size > 0 && v.size < -args[2].data[0].Floor
  {
    var args, v, x := Args(node, end), Judge(node, shapes, inits), node.inputs[0];
    assert forall i :: 1 <= i < 5 ==> args[i] == inits[node.inputs[i]];
    assert v == SizeAlong(node, shapes, args[3].data[0].Floor);
    assert x in shapes && |end[x].dims| == |shapes[x]|;
  }

  lemma GatherArgs(node: Node, shapes: Shapes, inits: Env, end: Env, extra: Env)
    requires OwnIndices(node, shapes, inits, extra) && end.Keys !! extra.Keys && Reads(node, end)
    requires Judge(node, shapes, inits).Reverse?
    ensures var after, size := Rewritten(node, shapes, inits), Judge(node, shapes, inits).size;
            && Reads(after, end + extra)
            && Args(after, end + extra) == [end[node.inputs[0]], Tensor([size], Backwards(size))]
  {
  }

  lemma SliceIsGather(m: Meaning, node: Node, shapes: Shapes, inits: Env, end: Env, extra: Env, i: nat)
    requires Reversible(node, shapes, inits) && OwnIndices(node, shapes, inits, extra) && ShapesHold(shapes, end)
    requires Extends(inits, end) && end.Keys !! extra.Keys && Reads(node, end)
    requires Judge(node, shapes, inits).Reverse?
    ensures var after := Rewritten(node, shapes, inits);
            && Reads(after, end + extra)
            && Onnx(m)(after.op, Args(after, end + extra), i) == Onnx(m)(node.op, Args(node, end), i)
  {
    var v, args := Judge(node, shapes, inits), Args(node, end);
    ReversedArgs(node, shapes, inits, end);
    GatherArgs(node, shapes, inits, end, extra);
    SliceApplied(m, args, i);
    GatherApplied(m, args[0], v.axis, v.size, i);
    WholeAxisExactly(v.size, args[2].data[0].Floor);
  }

  lemma ReversalEquivalent(m: Meaning, node: Node, shapes: Shapes, inits: Env, end: Env, extra: Env)
    requires Reversible(node, shapes, inits) && OwnIndices(node, shapes, inits, extra) && ShapesHold(shapes, end)
    requires Extends(inits, end) && end.Keys !! extra.Keys
    ensures Equivalent(Onnx(m), node, Rewritten(node, shapes, inits), end, extra)
  {
    if !Judge(node, shapes, inits).Reverse? {
      SameAsItself(Onnx(m), node, end, extra);
    } else if Reads(node, end) {
      var after := Rewritten(node, shapes, inits);
      forall i | 0 <= i < |node.outputs|
        ensures Reads(after, end + extra)
        ensures Onnx(m)(after.op, Args(after, end + extra), i) == Onnx(m)(node.op, Args(node, end), i)
      {
        SliceIsGather(m, node, shapes, inits, end, extra, i);
      }
    }
  }

  /** Every value of the run is kept, and the indices are the only names added. */
  lemma ReversalsKeepValues(m: Meaning, nodes: seq<Node>, shapes: Shapes, inits: Env, env: Env, extra: Env)
    requires Run(Onnx(m), nodes, env).Some? && Extends(inits, env)
    requires ShapesHold(shapes, Run(Onnx(m), nodes, env).value)
    requires Run(Onnx(m), nodes, env).value.Keys !! extra.Keys
    requires forall k :: 0 <= k < |nodes| ==>
               Reversible(nodes[k], shapes, inits) && OwnIndices(nodes[k], shapes, inits, extra)
    ensures Run(Onnx(m), RewrittenAll(nodes, shapes, inits), env + extra)
            == Some(Run(Onnx(m), nodes, env).value + extra)
  {
    var end := Run(Onnx(m), nodes, env).value;
    RunExtends(Onnx(m), nodes, env);
    var after := RewrittenAll(nodes, shapes, inits);
    forall k | 0 <= k < |nodes| ensures Equivalent(Onnx(m), nodes[k], after[k], end, extra) {
      ReversalEquivalent(m, nodes[k], shapes, inits, end, extra);
    }
    ReplacedOneForOne(Onnx(m), nodes, after, env, extra);
  }

  // ---- whose indices -------------------------------------------------------------------------------

  /** Of the reversed slices that share a name, all run over axes of one length. */
  ghost predicate NamesTellSizes(nodes: seq<Node>, shapes: Shapes, inits: Env) {
    forall i, j :: 0 <= i < |nodes| && 0 <= j < |nodes| && nodes[i].name == nodes[j].name ==>
      var v, w := Judge(nodes[i], shapes, inits), Judge(nodes[j], shapes, inits);
      v.Reverse? && w.Reverse? ==> v.size == w.size
  }

  ghost predicate LastOf(nodes: seq<Node>, shapes: Shapes, inits: Env, name: string, k: int) {
    && 0 <= k < |nodes| && nodes[k].name == name && Judge(nodes[k], shapes, inits).Reverse?
    && forall i :: k < i < |nodes| && nodes[i].name == name ==> !Judge(nodes[i], shapes, inits).Reverse?
  }

  /** The table holds the indices of the last reversed slice of each name. */
  lemma {:induction false} AddedLookup(nodes: seq<Node>, shapes: Shapes, inits: Env, i: nat) returns (k: nat)
    requires i < |nodes| && Judge(nodes[i], shapes, inits).Reverse?
    ensures k < |nodes| && LastOf(nodes, shapes, inits, nodes[i].name, k)
    ensures ReverseIndices(nodes[i].name) in Table(Added(nodes, shapes, inits))
    ensures Table(Added(nodes, shapes, inits))[ReverseIndices(nodes[i].name)]
            == Indices(nodes[k], Judge(nodes[k], shapes, inits).size).value
  {
    var n := |nodes| - 1;
    var init, last := nodes[..n], nodes[n];
    var v := Judge(last, shapes, inits);
    var earlier := Added(init, shapes, inits);
    if v.Reverse? {
      var all := earlier + [Indices(last, v.size)];
      assert all[..|all| - 1] == earlier;
    } else {
      assert earlier + [] == earlier;
    }
    if v.Reverse? && last.name == nodes[i].name {
      k := n;
    } else {
      k := AddedLookup(init, shapes, inits, i);
    }
  }

  /** Every Gather reads the indices made for it exactly when names tell the sizes apart. */
  lemma OwnIndicesExactly(nodes: seq<Node>, shapes: Shapes, inits: Env)
    ensures (forall i :: 0 <= i < |nodes| ==> OwnIndices(nodes[i], shapes, inits, Table(Added(nodes, shapes, inits))))
            <==> NamesTellSizes(nodes, shapes, inits)
  {
    forall i | 0 <= i < |nodes| && Judge(nodes[i], shapes, inits).Reverse?
      ensures ReverseIndices(nodes[i].name) in Table(Added(nodes, shapes, inits))
      ensures exists k :: LastOf(nodes, shapes, inits, nodes[i].name, k)
                          && Table(Added(nodes, shapes, inits))[ReverseIndices(nodes[i].name)]
                             == Indices(nodes[k], Judge(nodes[k], shapes, inits).size).value
    {
      var k := AddedLookup(nodes, shapes, inits, i);
    }
  }

  // ---- with the positions of another axis ----------------------------------------------------------

  /** The positions that the Gather looks up, for a slice of that name. */
  ghost predicate IndicesOf(node: Node, other: nat, extra: Env) {
    ReverseIndices(node.name) in extra && extra[ReverseIndices(node.name)] == Tensor([other], Backwards(other))
  }

  lemma BackwardsWithin(size: nat, other: nat)
    requires size > 0
    ensures Within(GatherPicks(size, Backwards(other)), size) <==> other <= size
  {
    if other > size {
      assert GatherPicks(size, Backwards(other))[0] == other - 1;
    }
  }

  /** The Gather stays inside its axis and gives the outputs of the Slice. */
  ghost predicate KeepsOutputs(m: Meaning, node: Node, shapes: Shapes, inits: Env, end: Env, extra: Env)
    requires Reads(node, end) && Reads(Rewritten(node, shapes, inits), end + extra)
    requires Judge(node, shapes, inits).Reverse?
  {
    var after, v := Rewritten(node, shapes, inits), Judge(node, shapes, inits);
    && Within(GatherPicks(v.size, Args(after, end + extra)[1].data), v.size)
    && forall i: nat :: Onnx(m)(after.op, Args(after, end + extra), i) == Onnx(m)(node.op, Args(node, end), i)
  }

  lemma GatherOther(m: Meaning, x: Tensor, axis: int, other: nat, i: nat)
    requires IsAxis(x, axis) && 0 < x.dims[AxisOf(x, axis)] && other <= x.dims[AxisOf(x, axis)]
    ensures var t := Apply(m, Gather(axis), [x, Tensor([other], Backwards(other))], i);
            |t.dims| == |x.dims| && t.dims[AxisOf(x, axis)] == other
  {
    BackwardsWithin(x.dims[AxisOf(x, axis)], other);
  }

  lemma SliceWhole(m: Meaning, node: Node, shapes: Shapes, inits: Env, end: Env, i: nat)
    requires Reversible(node, shapes, inits) && ShapesHold(shapes, end) && Extends(inits, end) && Reads(node, end)
    requires Judge(node, shapes, inits).Reverse?
    ensures var t, v := Onnx(m)(node.op, Args(node, end), i), Judge(node, shapes, inits);
            IsAxis(t, v.axis) && t.dims[AxisOf(t, v.axis)] == v.size && |t.dims| == |end[node.inputs[0]].dims|
  {
    var v, args := Judge(node, shapes, inits), Args(node, end);
    ReversedArgs(node, shapes, inits, end);
    SliceApplied(m, args, i);
    WholeAxisExactly(v.size, args[2].data[0].Floor);
  }

  lemma GatherReads(node: Node, shapes: Shapes, inits: Env, end: Env, other: nat, extra: Env)
    requires Reads(node, end) && Judge(node, shapes, inits).Reverse?
    requires end.Keys !! extra.Keys && IndicesOf(node, other, extra)
    ensures var after := Rewritten(node, shapes, inits);
            && Reads(after, end + extra)
            && Args(after, end + extra) == [end[node.inputs[0]], Tensor([other], Backwards(other))]
  {
  }

  /** With the positions of another axis the Gather keeps the outputs exactly when the lengths are equal. */
  lemma KeepsOutputsExactly(m: Meaning, node: Node, shapes: Shapes, inits: Env, end: Env, other: nat, extra: Env)
    requires Reversible(node, shapes, inits) && ShapesHold(shapes, end) && Extends(inits, end) && Reads(node, end)
    requires Judge(node, shapes, inits).Reverse? && end.Keys !! extra.Keys && IndicesOf(node, other, extra)
    ensures Reads(Rewritten(node, shapes, inits), end + extra)
    ensures KeepsOutputs(m, node, shapes, inits, end, extra) <==> other == Judge(node, shapes, inits).size
  {
    var v, x := Judge(node, shapes, inits), end[node.inputs[0]];
    GatherReads(node, shapes, inits, end, other, extra);
    ReversedArgs(node, shapes, inits, end);
    BackwardsWithin(v.size, other);
    if other == v.size {
      forall i: nat ensures var after := Rewritten(node, shapes, inits);
                            Onnx(m)(after.op, Args(after, end + extra), i) == Onnx(m)(node.op, Args(node, end), i)
      {
        SliceIsGather(m, node, shapes, inits, end, extra, i);
      }
    } else if other < v.size {
      GatherOther(m, x, v.axis, other, 0);
      SliceWhole(m, node, shapes, inits, end, 0);
    }
  }

  // ---- over a whole list ---------------------------------------------------------------------------

  /** The reversed slices of the list keep their outputs. */
  ghost predicate AllKeepOutputs(m: Meaning, nodes: seq<Node>, shapes: Shapes, inits: Env, end: Env, extra: Env)
    requires forall k :: 0 <= k < |nodes| ==>
               Reads(nodes[k], end) && Reads(Rewritten(nodes[k], shapes, inits), end + extra)
  {
    forall k :: 0 <= k < |nodes| && Judge(nodes[k], shapes, inits).Reverse? ==>
      KeepsOutputs(m, nodes[k], shapes, inits, end, extra)
  }

  /** A reversed slice and the last one of its name. */
  lemma LastTells(m: Meaning, nodes: seq<Node>, shapes: Shapes, inits: Env, end: Env, i: nat) returns (k: nat)
    requires i < |nodes| && Judge(nodes[i], shapes, inits).Reverse? && Reversible(nodes[i], shapes, inits)
    requires ShapesHold(shapes, end) && Extends(inits, end) && Reads(nodes[i], end)
    requires end.Keys !! Table(Added(nodes, shapes, inits)).Keys
    ensures LastOf(nodes, shapes, inits, nodes[i].name, k)
    ensures Reads(Rewritten(nodes[i], shapes, inits), end + Table(Added(nodes, shapes, inits)))
    ensures KeepsOutputs(m, nodes[i], shapes, inits, end, Table(Added(nodes, shapes, inits)))
            <==> Judge(nodes[k], shapes, inits).size == Judge(nodes[i], shapes, inits).size
  {
    k := AddedLookup(nodes, shapes, inits, i);
    KeepsOutputsExactly(m, nodes[i], shapes, inits, end, Judge(nodes[k], shapes, inits).size,
                        Table(Added(nodes, shapes, inits)));
  }

  lemma SameReads(nodes: seq<Node>, shapes: Shapes, inits: Env, end: Env, k: nat)
    requires k < |nodes| && Reads(nodes[k], end) && end.Keys !! Table(Added(nodes, shapes, inits)).Keys
    ensures Reads(Rewritten(nodes[k], shapes, inits), end + Table(Added(nodes, shapes, inits)))
  {
    if Judge(nodes[k], shapes, inits).Reverse? {
      var last := AddedLookup(nodes, shapes, inits, k);
    }
  }

  lemma LastUnique(nodes: seq<Node>, shapes: Shapes, inits: Env, name: string, j: nat, k: nat)
    requires LastOf(nodes, shapes, inits, name, j) && LastOf(nodes, shapes, inits, name, k)
    ensures j == k
  {
  }

  /** Two reversed slices of one name that both keep their outputs run over axes of one length. */
  lemma SizesAgree(m: Meaning, nodes: seq<Node>, shapes: Shapes, inits: Env, end: Env, i: nat, j: nat)
    requires ShapesHold(shapes, end) && Extends(inits, end) && end.Keys !! Table(Added(nodes, shapes, inits)).Keys
    requires forall k :: 0 <= k < |nodes| ==> Reversible(nodes[k], shapes, inits) && Reads(nodes[k], end)
    requires forall k :: 0 <= k < |nodes| ==>
               Reads(Rewritten(nodes[k], shapes, inits), end + Table(Added(nodes, shapes, inits)))
    requires i < |nodes| && j < |nodes| && nodes[i].name == nodes[j].name
    requires Judge(nodes[i], shapes, inits).Reverse? && Judge(nodes[j], shapes, inits).Reverse?
    requires AllKeepOutputs(m, nodes, shapes, inits, end, Table(Added(nodes, shapes, inits)))
    ensures Judge(nodes[i], shapes, inits).size == Judge(nodes[j], shapes, inits).size
  {
    var k := LastTells(m, nodes, shapes, inits, end, i);
    var l := LastTells(m, nodes, shapes, inits, end, j);
    LastUnique(nodes, shapes, inits, nodes[i].name, k, l);
  }

  /** Every reversed slice of a list keeps its outputs exactly when names tell the lengths of the axes apart. */
  lemma OutputsKeptExactly(m: Meaning, nodes: seq<Node>, shapes: Shapes, inits: Env, end: Env)
    requires ShapesHold(shapes, end) && Extends(inits, end) && end.Keys !! Table(Added(nodes, shapes, inits)).Keys
    requires forall k :: 0 <= k < |nodes| ==> Reversible(nodes[k], shapes, inits) && Reads(nodes[k], end)
    ensures forall k :: 0 <= k < |nodes| ==>
              Reads(Rewritten(nodes[k], shapes, inits), end + Table(Added(nodes, shapes, inits)))
    ensures AllKeepOutputs(m, nodes, shapes, inits, end, Table(Added(nodes, shapes, inits)))
            <==> NamesTellSizes(nodes, shapes, inits)
  {
    var extra := Table(Added(nodes, shapes, inits));
    forall k | 0 <= k < |nodes| ensures Reads(Rewritten(nodes[k], shapes, inits), end + extra) {
      SameReads(nodes, shapes, inits, end, k);
    }
    if NamesTellSizes(nodes, shapes, inits) {
      forall i | 0 <= i < |nodes| && Judge(nodes[i], shapes, inits).Reverse?
        ensures KeepsOutputs(m, nodes[i], shapes, inits, end, extra)
      {
        var k := LastTells(m, nodes, shapes, inits, end, i);
      }
    }
    if AllKeepOutputs(m, nodes, shapes, inits, end, extra) {
      forall i, j | 0 <= i < |nodes| && 0 <= j < |nodes| && nodes[i].name == nodes[j].name
        ensures var v, w := Judge(nodes[i], shapes, inits), Judge(nodes[j], shapes, inits);
                v.Reverse? && w.Reverse? ==> v.size == w.size
      {
        if Judge(nodes[i], shapes, inits).Reverse? && Judge(nodes[j], shapes, inits).Reverse? {
          SizesAgree(m, nodes, shapes, inits, end, i, j);
        }
      }
    }
  }
}
