/** The pre-pass keeps the values of the model, by what a caller can see of the model and its run. */
module PrepassValues {
  import opened Common
  import opened OnnxGraph
  import opened OnnxOrder
  import opened OnnxRun
  import opened Tensors
  import opened DynamicMatmuls
  import opened MatmulNext
  import opened MatmulPass
  import opened MatmulPlaces
  import opened MatmulValues
  import opened LooseRanks
  import opened RescaledProducts
  import opened StandingNodes
  import opened Prepass
  import ConvPads
  import ReverseSlices

  lemma {:induction false} TableAppend(a: seq<Initializer>, b: seq<Initializer>)
    ensures Table(a + b) == Table(a) + Table(b)
  {
    if b == [] {
      assert a + b == a;
    } else {
      var last := b[|b| - 1];
      assert (a + b)[|a + b| - 1] == last && (a + b)[..|a + b| - 1] == a + b[..|b| - 1];
      TableAppend(a, b[..|b| - 1]);
    }
  }

  /**
   * What the pre-pass may assume of a model: its run succeeds, shape inference is right, every Conv and every
   * reversed Slice is well formed, reversed slices of one name run over axes of one length, and the names of
   * the reversed positions are new.
   */
  ghost predicate Fit(m: Meaning, nodes: seq<Node>, inits: seq<Initializer>, shapes: Shapes, env: Env, end: Env) {
    && Run(Onnx(m), nodes, env) == Some(end) && Extends(Table(inits), env) && ShapesHold(shapes, end)
    && ConvPads.AllKnown(nodes, shapes, Table(inits))
    && (forall i :: 0 <= i < |nodes| ==> ConvPads.WellFormedConv(nodes[i], end))
    && ReverseSlices.AllJudged(nodes, shapes, Table(inits))
    && (forall i :: 0 <= i < |nodes| ==> ReverseSlices.Reversible(nodes[i], shapes, Table(inits)))
    && ReverseSlices.NamesTellSizes(nodes, shapes, Table(inits))
    && end.Keys !! Table(NewIndices(nodes, inits, shapes)).Keys
  }

  /** Making pads explicit leaves alone what the second pass looks at. */
  lemma SameJudged(n: Node, shapes: Shapes, inits: Env)
    ensures var padded := ConvPads.Explicit(n, shapes, inits);
            && ReverseSlices.Judge(padded, shapes, inits) == ReverseSlices.Judge(n, shapes, inits)
            && padded.name == n.name && padded.inputs == n.inputs && padded.outputs == n.outputs
            && (padded == n || (padded.op.Conv? && n.op.Conv?))
  {
  }

  lemma PaddedFits(nodes: seq<Node>, inits: seq<Initializer>, shapes: Shapes)
    requires ReverseSlices.AllJudged(nodes, shapes, Table(inits))
    requires ReverseSlices.NamesTellSizes(nodes, shapes, Table(inits))
    requires forall i :: 0 <= i < |nodes| ==> ReverseSlices.Reversible(nodes[i], shapes, Table(inits))
    ensures var padded := ExplicitNodes(nodes, inits, shapes);
            && ReverseSlices.AllJudged(padded, shapes, Table(inits))
            && ReverseSlices.NamesTellSizes(padded, shapes, Table(inits))
            && forall i :: 0 <= i < |padded| ==> ReverseSlices.Reversible(padded[i], shapes, Table(inits))
  {
    var padded := ExplicitNodes(nodes, inits, shapes);
    forall i | 0 <= i < |nodes|
      ensures ReverseSlices.Judge(padded[i], shapes, Table(inits))
              == ReverseSlices.Judge(nodes[i], shapes, Table(inits))
      ensures padded[i].name == nodes[i].name && padded[i].inputs == nodes[i].inputs
    {
      SameJudged(nodes[i], shapes, Table(inits));
    }
  }

  lemma GatheredRun(m: Meaning, nodes: seq<Node>, inits: seq<Initializer>, shapes: Shapes, env: Env, end: Env)
    requires Fit(m, nodes, inits, shapes, env, end)
    ensures Preparable(nodes, inits, shapes)
    ensures var extra := Table(NewIndices(nodes, inits, shapes));
            Run(Onnx(m), GatherNodes(nodes, inits, shapes), env + extra) == Some(end + extra)
  {
    var table, padded := Table(inits), ExplicitNodes(nodes, inits, shapes);
    PaddedFits(nodes, inits, shapes);
    ConvPads.ExplicitPadsKeepValues(m, nodes, shapes, table, env);
    ReverseSlices.OwnIndicesExactly(padded, shapes, table);
    ReverseSlices.ReversalsKeepValues(m, padded, shapes, table, env, Table(NewIndices(nodes, inits, shapes)));
  }

  /** The table of the model and the new indices, in the environment with the new indices. */
  lemma TableWithIndices(inits: seq<Initializer>, added: seq<Initializer>, env: Env)
    requires Extends(Table(inits), env)
    ensures Table(inits + added) == Table(inits) + Table(added) && Extends(Table(inits + added), env + Table(added))
  {
    TableAppend(inits, added);
  }

  // ---- the list that the third pass finds ----------------------------------------------------------

  /** A node after the first two passes stands for the node before them. */
  lemma GatheredStands(nodes: seq<Node>, inits: seq<Initializer>, shapes: Shapes, i: nat)
    requires i < |nodes|
    ensures StandsFor(GatherNodes(nodes, inits, shapes)[i], nodes[i], Table(NewIndices(nodes, inits, shapes)).Keys)
  {
    var table, padded := Table(inits), ExplicitNodes(nodes, inits, shapes);
    SameJudged(nodes[i], shapes, table);
    if ReverseSlices.Judge(padded[i], shapes, table).Reverse? {
      var k := ReverseSlices.AddedLookup(padded, shapes, table, i);
    }
  }

  lemma {:induction false} AddedNames(nodes: seq<Node>, shapes: Shapes, inits: Env, n: Name)
    requires n in Table(ReverseSlices.Added(nodes, shapes, inits))
    ensures n.ReverseIndices?
  {
    var i := |nodes| - 1;
    var front, v := ReverseSlices.Added(nodes[..i], shapes, inits), ReverseSlices.Judge(nodes[i], shapes, inits);
    if v.Reverse? {
      TableAppend(front, [ReverseSlices.Indices(nodes[i], v.size)]);
    } else {
      assert front + [] == front;
    }
    if n in Table(front) {
      AddedNames(nodes[..i], shapes, inits, n);
    }
  }

  lemma GatheredBeside(m: Meaning, nodes: seq<Node>, inits: seq<Initializer>, shapes: Shapes, env: Env, end: Env)
    requires Fit(m, nodes, inits, shapes, env, end)
    ensures Beside(GatherNodes(nodes, inits, shapes), nodes, end, Table(NewIndices(nodes, inits, shapes)))
  {
    forall i | 0 <= i < |nodes|
      ensures StandsFor(GatherNodes(nodes, inits, shapes)[i], nodes[i], Table(NewIndices(nodes, inits, shapes)).Keys)
    {
      GatheredStands(nodes, inits, shapes, i);
    }
    forall i | 0 <= i < |nodes| ensures Reads(nodes[i], end) && Outputs(nodes[i]) <= end.Keys {
      RunComputes(Onnx(m), nodes, env, nodes[i]);
    }
  }

  /** What the third pass asks of its list follows from what it would ask of the model. */
  lemma GatheredStarts(m: Meaning, nodes: seq<Node>, inits: seq<Initializer>, shapes: Shapes, env: Env, end: Env)
    requires Fit(m, nodes, inits, shapes, env, end) && Pending([], nodes, Table(inits), env.Keys, 0)
    ensures var gathered, added := GatherNodes(nodes, inits, shapes), NewIndices(nodes, inits, shapes);
            Started(m, gathered, inits + added, env + Table(added), end + Table(added))
  {
    var gathered, added := GatherNodes(nodes, inits, shapes), NewIndices(nodes, inits, shapes);
    var extra := Table(added);
    GatheredRun(m, nodes, inits, shapes, env, end);
    GatheredBeside(m, nodes, inits, shapes, env, end);
    TableWithIndices(inits, added, env);
    RunExtends(Onnx(m), nodes, env);
    RunDefines(Onnx(m), nodes, env);
    RunsIffSorted(Onnx(m), gathered, env + extra);
    forall n | n in extra ensures Plain(n) {
      AddedNames(ExplicitNodes(nodes, inits, shapes), shapes, Table(inits), n);
    }
    assert (env + extra).Keys == env.Keys + extra.Keys;
    SamePending(gathered, nodes, extra.Keys, Table(inits), Table(inits + added), env.Keys);
  }

  /** The finished run starts from the model's own environment and the final initializers. */
  lemma StartsFromModel(nodes: seq<Node>, inits: seq<Initializer>, added: seq<Initializer>, env: Env, result: Rewrite)
    requires Extends(Table(inits), env) && Pending([], nodes, Table(inits + added), (env + Table(added)).Keys, 0)
    requires RewriteAll(nodes, inits + added, Quantizers(nodes), 0) == Outcome(result, None)
    ensures env + Table(added) + Table(result.inits) == env + Table(result.inits)
  {
    assert [] + nodes == nodes;
    TableWithIndices(inits, added, env);
    PassLeaves([], nodes, inits + added, (env + Table(added)).Keys, 0, result, Node(Slice, "", [], []));
    ConstantsInside(env, Table(inits), Table(added), Table(inits + added), Table(result.inits));
  }

  /** The names that go away are those of the model's own products. */
  lemma GatheredGone(m: Meaning, nodes: seq<Node>, inits: seq<Initializer>, shapes: Shapes, env: Env, end: Env)
    requires Fit(m, nodes, inits, shapes, env, end)
    ensures var gathered := GatherNodes(nodes, inits, shapes);
            GoneAll(gathered, Quantizers(gathered)) == GoneAll(nodes, Quantizers(nodes))
  {
    var gathered, extra := GatherNodes(nodes, inits, shapes), Table(NewIndices(nodes, inits, shapes)).Keys;
    GatheredBeside(m, nodes, inits, shapes, env, end);
    SameQuantizers(gathered, nodes, extra);
    SameGone(gathered, nodes, extra, Quantizers(nodes));
  }

  // ---- the three passes ----------------------------------------------------------------------------

  lemma GatheredTolerates(m: Meaning, nodes: seq<Node>, inits: seq<Initializer>, shapes: Shapes, env: Env, end: Env,
                          loose: Loose, g: Node)
    requires Fit(m, nodes, inits, shapes, env, end) && Follows(loose, end, end)
    requires g in GatherNodes(nodes, inits, shapes)
    requires forall i :: 0 <= i < |nodes| ==>
               ToleratedBy(Onnx(m), GatherNodes(nodes, inits, shapes)[i], nodes[i], loose, end,
                           Table(NewIndices(nodes, inits, shapes)))
    ensures Tolerates(Onnx(m), g, Inside(loose, end), end + Table(NewIndices(nodes, inits, shapes)))
  {
    var gathered, extra := GatherNodes(nodes, inits, shapes), Table(NewIndices(nodes, inits, shapes));
    var i :| 0 <= i < |gathered| && gathered[i] == g;
    GatheredBeside(m, nodes, inits, shapes, env, end);
    GatheredRun(m, nodes, inits, shapes, env, end);
    RunComputes(Onnx(m), gathered, env + extra, g);
    StandsTolerates(Onnx(m), g, nodes[i], end, extra, loose);
  }

  /**
   * The pre-pass keeps the values of the model: every name but those of the integer products is still written and
   * has its value, a loose name up to leading axes of length one.
   */
  lemma PrepassKeepsValues(m: Meaning, nodes: seq<Node>, inits: seq<Initializer>, shapes: Shapes, env: Env, end: Env,
                           loose: Loose)
    returns (result: Rewrite, after: Env)
    requires Fit(m, nodes, inits, shapes, env, end) && Pending([], nodes, Table(inits), env.Keys, 0)
    requires Follows(loose, end, end) && AllLive(nodes, loose, end)
    requires forall i :: 0 <= i < |nodes| ==>
               ToleratedBy(Onnx(m), GatherNodes(nodes, inits, shapes)[i], nodes[i], loose, end,
                           Table(NewIndices(nodes, inits, shapes)))
    ensures Preparable(nodes, inits, shapes) && Multiplied(nodes, inits, shapes) == Outcome(result, None)
    ensures Run(Onnx(m), result.nodes, env + Table(result.inits)) == Some(after)
    ensures Keeps(loose, GoneAll(nodes, Quantizers(nodes)), end, after)
  {
    var gathered, added := GatherNodes(nodes, inits, shapes), NewIndices(nodes, inits, shapes);
    var extra := Table(added);
    GatheredRun(m, nodes, inits, shapes, env, end);
    GatheredStarts(m, nodes, inits, shapes, env, end);
    GatheredBeside(m, nodes, inits, shapes, env, end);
    GatheredGone(m, nodes, inits, shapes, env, end);
    InsideFollows(loose, end, extra);
    InsideLive(gathered, nodes, end, extra, loose);
    forall g | g in gathered ensures Tolerates(Onnx(m), g, Inside(loose, end), end + extra) {
      GatheredTolerates(m, nodes, inits, shapes, env, end, loose, g);
    }
    result, after := PassKeepsValues(m, gathered, inits + added, env + extra, end + extra, Inside(loose, end));
    StartsFromModel(gathered, inits, added, env, result);
    InsideKeeps(loose, GoneAll(nodes, Quantizers(nodes)), end, extra, after);
  }

  /** The reversed positions are in the finished run as they were made. */
  lemma PositionsKept(m: Meaning, gathered: seq<Node>, inits: seq<Initializer>, added: seq<Initializer>, env: Env,
                      result: Rewrite, after: Env)
    requires Pending([], gathered, Table(inits + added), (env + Table(added)).Keys, 0)
    requires RewriteAll(gathered, inits + added, Quantizers(gathered), 0) == Outcome(result, None)
    requires Run(Onnx(m), result.nodes, env + Table(added) + Table(result.inits)) == Some(after)
    ensures Extends(Table(added), after)
  {
    assert [] + gathered == gathered;
    TableAppend(inits, added);
    PassLeaves([], gathered, inits + added, (env + Table(added)).Keys, 0, result, Node(Slice, "", [], []));
    RunExtends(Onnx(m), result.nodes, env + Table(added) + Table(result.inits));
    assert Extends(Table(added), Table(inits + added));
  }

  lemma ExactWithout(except: set<Name>, end: Env, extra: Env, after: Env)
    requires end.Keys !! extra.Keys && Extends(extra, after)
    ensures KeepsExactly(except, end + extra, after) <==> KeepsExactly(except, end, after)
  {
    assert forall n :: n in end ==> n in end + extra && (end + extra)[n] == end[n];
    assert forall n :: n in extra ==> n in end + extra && (end + extra)[n] == extra[n];
  }

  /**
   * Where scales are read by broadcasting operators, every name that is left, other than a scale, keeps exactly its
   * value if and only if each of them combines the scale with a tensor that has the axes of the quantised one.
   */
  lemma PrepassKeepsExactly(m: Meaning, nodes: seq<Node>, inits: seq<Initializer>, shapes: Shapes, env: Env, end: Env)
    returns (result: Rewrite, after: Env)
    requires Fit(m, nodes, inits, shapes, env, end) && Pending([], nodes, Table(inits), env.Keys, 0)
    requires AllNonzero(nodes, end) && ScalesCombined(nodes, end)
    ensures Preparable(nodes, inits, shapes) && Multiplied(nodes, inits, shapes) == Outcome(result, None)
    ensures Run(Onnx(m), result.nodes, env + Table(result.inits)) == Some(after)
    ensures KeepsExactly(GoneAll(nodes, Quantizers(nodes)) + Scales(nodes, end).Keys, end, after)
            <==> AllRescaled(nodes, end)
  {
    var gathered, added := GatherNodes(nodes, inits, shapes), NewIndices(nodes, inits, shapes);
    var extra := Table(added);
    GatheredRun(m, nodes, inits, shapes, env, end);
    GatheredStarts(m, nodes, inits, shapes, env, end);
    GatheredBeside(m, nodes, inits, shapes, env, end);
    GatheredGone(m, nodes, inits, shapes, env, end);
    SameNonzero(gathered, nodes, end, extra);
    SameScales(gathered, nodes, end, extra);
    SameScalesCombined(gathered, nodes, end, extra);
    SameRescaled(gathered, nodes, end, extra);
    result, after := RescaledPassExactly(m, gathered, inits + added, env + extra, end + extra);
    PositionsKept(m, gathered, inits, added, env, result, after);
    StartsFromModel(gathered, inits, added, env, result);
    ExactWithout(GoneAll(nodes, Quantizers(nodes)) + Scales(nodes, end).Keys, end, extra, after);
  }

  lemma WidenedWithout(loose: Loose, gone: set<Name>, end: Env, extra: Env, after: Env)
    requires end.Keys !! extra.Keys && Widened(loose, gone, end + extra, after)
    ensures Widened(loose, gone, end, after)
  {
    forall n | n in end && n !in gone
      ensures n in after && after[n] == Tensor(PadTo(end[n].dims, Reach(loose, end, n)), end[n].data)
    {
      assert n in end + extra && (end + extra)[n] == end[n];
    }
  }

  /**
   * Where only broadcasting operators read loose names, every name that is left has its value with the axes of its
   * loose rank: exactly the values of names that are not loose stay as they were.
   */
  lemma PrepassWidens(m: Meaning, nodes: seq<Node>, inits: seq<Initializer>, shapes: Shapes, env: Env, end: Env)
    returns (result: Rewrite, after: Env)
    requires Fit(m, nodes, inits, shapes, env, end) && Pending([], nodes, Table(inits), env.Keys, 0)
    requires AllNonzero(nodes, end) && AllCombined(nodes, end)
    ensures Preparable(nodes, inits, shapes) && Multiplied(nodes, inits, shapes) == Outcome(result, None)
    ensures Run(Onnx(m), result.nodes, env + Table(result.inits)) == Some(after)
    ensures Widened(Loosened(nodes, end), GoneAll(nodes, Quantizers(nodes)), end, after)
    ensures forall n :: n in end && n !in GoneAll(nodes, Quantizers(nodes)) ==>
              (n in after && after[n] == end[n] <==> n !in Loosened(nodes, end))
  {
    var gathered, added := GatherNodes(nodes, inits, shapes), NewIndices(nodes, inits, shapes);
    var extra := Table(added);
    GatheredRun(m, nodes, inits, shapes, env, end);
    GatheredStarts(m, nodes, inits, shapes, env, end);
    GatheredBeside(m, nodes, inits, shapes, env, end);
    GatheredGone(m, nodes, inits, shapes, env, end);
    SameNonzero(gathered, nodes, end, extra);
    SameLoosened(gathered, nodes, end, extra);
    SameAllCombined(gathered, nodes, end, extra);
    result, after := LoosenedPassExactly(m, gathered, inits + added, env + extra, end + extra);
    StartsFromModel(gathered, inits, added, env, result);
    WidenedWithout(Loosened(nodes, end), GoneAll(nodes, Quantizers(nodes)), end, extra, after);
    forall n | n in end ensures n in end + extra && (end + extra)[n] == end[n] {
    }
  }
}
