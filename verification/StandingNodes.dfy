/**
 * A node list in which some Conv, Slice and Gather nodes stand for others with the same outputs: what the pass over
 * the dynamic products asks of the one list holds of the other.
 */
module StandingNodes {
  import opened Quantization
  import opened OnnxGraph
  import opened OnnxOrder
  import opened OnnxRun
  import opened Tensors
  import opened QuantizeChain
  import opened DynamicMatmuls
  import opened MatmulNames
  import opened MatmulNext
  import opened MatmulValues
  import opened MatmulPass
  import opened LooseRanks
  import opened RescaledProducts

  predicate Shifting(op: Op) {
    op.Conv? || op.Slice? || op.Gather?
  }

  /** The same outputs from the same inputs or some of them, and from extra names; other operators are not touched. */
  predicate StandsFor(g: Node, n: Node, extra: set<Name>) {
    && g.outputs == n.outputs && (g == n || (Shifting(g.op) && Shifting(n.op)))
    && forall i :: 0 <= i < |g.inputs| ==> g.inputs[i] in n.inputs || g.inputs[i] in extra
  }

  predicate AllStand(gathered: seq<Node>, nodes: seq<Node>, extra: set<Name>) {
    |gathered| == |nodes| && forall i :: 0 <= i < |nodes| ==> StandsFor(gathered[i], nodes[i], extra)
  }

  // ---- the same products ---------------------------------------------------------------------------

  lemma {:induction false} SameOutputs(gathered: seq<Node>, nodes: seq<Node>, extra: set<Name>)
    requires AllStand(gathered, nodes, extra)
    ensures AllOutputs(gathered) == AllOutputs(nodes)
  {
    if nodes != [] {
      SameOutputs(gathered[1..], nodes[1..], extra);
    }
  }

  lemma {:induction false} SameFound(gathered: seq<Node>, nodes: seq<Node>, extra: set<Name>, o: Name)
    requires AllStand(gathered, nodes, extra)
    ensures FindProduct(gathered, o) == FindProduct(nodes, o) && FindCast(gathered, o) == FindCast(nodes, o)
  {
    if nodes != [] {
      SameFound(gathered[1..], nodes[1..], extra, o);
    }
  }

  lemma {:induction false} SameQuantizers(gathered: seq<Node>, nodes: seq<Node>, extra: set<Name>)
    requires AllStand(gathered, nodes, extra)
    ensures Quantizers(gathered) == Quantizers(nodes)
  {
    if nodes != [] {
      SameQuantizers(gathered[1..], nodes[1..], extra);
    }
  }

  /** The node that a node of the new list stands for. */
  lemma StoodFor(gathered: seq<Node>, nodes: seq<Node>, extra: set<Name>, g: Node) returns (n: Node)
    requires AllStand(gathered, nodes, extra) && g in gathered
    ensures n in nodes && StandsFor(g, n, extra)
  {
    var i :| 0 <= i < |gathered| && gathered[i] == g;
    n := nodes[i];
  }

  lemma SameReader(gathered: seq<Node>, nodes: seq<Node>, extra: set<Name>, o: Name, reader: Node)
    requires AllStand(gathered, nodes, extra) && OnlyReader(nodes, o, reader) && o !in extra && !Shifting(reader.op)
    ensures OnlyReader(gathered, o, reader)
  {
    forall g | g in gathered && o in g.inputs ensures g == reader {
      var n := StoodFor(gathered, nodes, extra, g);
    }
  }

  lemma SameSite(gathered: seq<Node>, nodes: seq<Node>, extra: set<Name>, table: Env, grown: Env, d: Node)
    requires AllStand(gathered, nodes, extra) && Convertible(nodes, table, d) && Extends(table, grown)
    ensures SiteOf(gathered, grown, d) == SiteOf(nodes, table, d)
  {
    var site := SiteOf(nodes, table, d).value;
    SiteFacts(nodes, table, d);
    SameFound(gathered, nodes, extra, d.outputs[0]);
    SameFound(gathered, nodes, extra, site.product.outputs[0]);
  }

  lemma SameConvertible(gathered: seq<Node>, nodes: seq<Node>, extra: set<Name>, table: Env, grown: Env, d: Node)
    requires AllStand(gathered, nodes, extra) && Convertible(nodes, table, d) && Extends(table, grown) && d in nodes
    requires extra !! AllOutputs(nodes)
    ensures Convertible(gathered, grown, d)
  {
    var site := SiteOf(nodes, table, d).value;
    SiteFacts(nodes, table, d);
    SameSite(gathered, nodes, extra, table, grown, d);
    OutputIn(nodes, d, d.outputs[0]);
    OutputIn(nodes, d, d.outputs[2]);
    OutputIn(nodes, site.product, site.product.outputs[0]);
    SameReader(gathered, nodes, extra, d.outputs[0], site.product);
    SameReader(gathered, nodes, extra, d.outputs[2], site.product);
    SameReader(gathered, nodes, extra, site.product.outputs[0], site.cast);
  }

  lemma {:induction false} SameGone(gathered: seq<Node>, nodes: seq<Node>, extra: set<Name>, dqls: seq<Node>)
    requires AllStand(gathered, nodes, extra)
    ensures GoneAll(gathered, dqls) == GoneAll(nodes, dqls)
  {
    if dqls != [] {
      if |dqls[0].outputs| == 3 {
        SameFound(gathered, nodes, extra, dqls[0].outputs[0]);
      }
      SameGone(gathered, nodes, extra, dqls[1..]);
    }
  }

  /** Names made of nothing that a rewrite makes up. */
  predicate Plain(n: Name) {
    n.Given? || n.ReverseIndices?
  }

  /** The new list is as ready for the pass as the old one. */
  lemma SamePending(gathered: seq<Node>, nodes: seq<Node>, extra: set<Name>, table: Env, grown: Env, defined: set<Name>)
    requires AllStand(gathered, nodes, extra) && Pending([], nodes, table, defined, 0) && Extends(table, grown)
    requires Sorted(gathered, defined + extra) && grown.Keys <= defined + extra && extra !! AllOutputs(nodes)
    requires forall n :: n in extra ==> Plain(n)
    ensures Pending([], gathered, grown, defined + extra, 0)
  {
    assert [] + nodes == nodes && [] + gathered == gathered;
    SameOutputs(gathered, nodes, extra);
    forall d | d in gathered && d.op.DynamicQuantizeLinear? ensures Convertible(gathered, grown, d) {
      var n := StoodFor(gathered, nodes, extra, d);
      SameConvertible(gathered, nodes, extra, table, grown, d);
    }
    forall g | g in gathered ensures forall i :: 0 <= i < |g.outputs| ==> Original(g.outputs[i]) {
      var n := StoodFor(gathered, nodes, extra, g);
    }
    forall n | n in defined + extra + AllOutputs(gathered) ensures FreshName(n, gathered, 0) {
      if n !in extra {
        assert FreshName(n, nodes, 0);
      }
    }
  }

  // ---- the same loose names ------------------------------------------------------------------------

  /** Two lists beside each other, with the run of the one and the names that the other adds. */
  ghost predicate Beside(gathered: seq<Node>, nodes: seq<Node>, end: Env, extra: Env) {
    && AllStand(gathered, nodes, extra.Keys) && end.Keys !! extra.Keys
    && (forall i :: 0 <= i < |nodes| ==> Reads(nodes[i], end) && Outputs(nodes[i]) <= end.Keys)
  }

  lemma SameRole(g: Node, n: Node, end: Env, extra: Env)
    requires StandsFor(g, n, extra.Keys) && end.Keys !! extra.Keys && Reads(n, end)
    ensures Quantizer(g, end + extra) <==> Quantizer(n, end)
    ensures Broadcasting(g, end + extra) <==> Broadcasting(n, end)
    ensures Quantizer(n, end) || Broadcasting(n, end) ==> g == n
  {
  }

  lemma SameWidest(loose: Loose, n: Node, end: Env, extra: Env)
    requires end.Keys !! extra.Keys && Broadcasting(n, end)
    ensures Broadcasting(n, end + extra)
    ensures Widest(loose, n, end + extra) == Widest(loose, n, end) && Narrow(n, end + extra) == Narrow(n, end)
  {
  }

  lemma SameLoosen(loose: Loose, g: Node, n: Node, end: Env, extra: Env)
    requires StandsFor(g, n, extra.Keys) && end.Keys !! extra.Keys && Reads(n, end)
    ensures Loosen(loose, g, end + extra) == Loosen(loose, n, end)
  {
    SameRole(g, n, end, extra);
    if Broadcasting(n, end) {
      SameWidest(loose, n, end, extra);
    }
  }

  lemma {:induction false} SameLoosened(gathered: seq<Node>, nodes: seq<Node>, end: Env, extra: Env)
    requires Beside(gathered, nodes, end, extra)
    ensures Loosened(gathered, end + extra) == Loosened(nodes, end)
  {
    if nodes != [] {
      var i := |nodes| - 1;
      SameLoosened(gathered[..i], nodes[..i], end, extra);
      SameLoosen(Loosened(nodes[..i], end), gathered[i], nodes[i], end, extra);
    }
  }

  lemma {:induction false} SameScales(gathered: seq<Node>, nodes: seq<Node>, end: Env, extra: Env)
    requires Beside(gathered, nodes, end, extra)
    ensures Scales(gathered, end + extra) == Scales(nodes, end)
  {
    if nodes != [] {
      SameScales(gathered[1..], nodes[1..], end, extra);
      SameRole(gathered[0], nodes[0], end, extra);
    }
  }

  /** The node that a node of the new list stands for reads what the run has. */
  lemma StoodBeside(gathered: seq<Node>, nodes: seq<Node>, end: Env, extra: Env, g: Node) returns (n: Node)
    requires Beside(gathered, nodes, end, extra) && g in gathered
    ensures n in nodes && StandsFor(g, n, extra.Keys) && Reads(n, end) && Outputs(n) <= end.Keys
  {
    var i :| 0 <= i < |gathered| && gathered[i] == g;
    n := nodes[i];
  }

  lemma SameNonzero(gathered: seq<Node>, nodes: seq<Node>, end: Env, extra: Env)
    requires Beside(gathered, nodes, end, extra) && AllNonzero(nodes, end)
    ensures AllNonzero(gathered, end + extra)
  {
    forall g | g in gathered && Quantizer(g, end + extra)
      ensures |(end + extra)[g.inputs[0]].dims| >= 1 && SomeNonzero((end + extra)[g.inputs[0]].data)
    {
      var n := StoodBeside(gathered, nodes, end, extra, g);
      SameRole(g, n, end, extra);
    }
  }

  lemma ReadsLooseToo(g: Node, n: Node, loose: Loose, extra: set<Name>)
    requires StandsFor(g, n, extra) && loose.Keys !! extra && ReadsLoose(g, loose)
    ensures ReadsLoose(n, loose)
  {
    var i :| 0 <= i < |g.inputs| && g.inputs[i] in loose;
    var j :| 0 <= j < |n.inputs| && n.inputs[j] == g.inputs[i];
  }

  /** Loose names that only broadcasting operators read are read by the same ones. */
  lemma SameCombined(gathered: seq<Node>, nodes: seq<Node>, end: Env, extra: Env, loose: Loose, g: Node)
    requires Beside(gathered, nodes, end, extra) && loose.Keys !! extra.Keys && g in gathered && ReadsLoose(g, loose)
    requires forall n :: n in nodes && ReadsLoose(n, loose) ==> Broadcasting(n, end)
    ensures g in nodes && Broadcasting(g, end) && Broadcasting(g, end + extra)
  {
    var n := StoodBeside(gathered, nodes, end, extra, g);
    ReadsLooseToo(g, n, loose, extra.Keys);
    SameRole(g, n, end, extra);
  }

  lemma LooseOfRun(gathered: seq<Node>, nodes: seq<Node>, end: Env, extra: Env)
    requires Beside(gathered, nodes, end, extra)
    ensures Loosened(nodes, end).Keys <= end.Keys && Scales(nodes, end).Keys <= end.Keys
  {
    LoosenedWritten(nodes, end);
    forall o | o in AllOutputs(nodes) ensures o in end {
      var n := WriterOf(nodes, o);
      assert o in Outputs(n);
    }
    forall o | o in Scales(nodes, end) ensures o in AllOutputs(nodes) {
      var d := ScaleWriter(nodes, end, o);
      OutputIn(nodes, d, o);
    }
  }

  lemma SameAllCombined(gathered: seq<Node>, nodes: seq<Node>, end: Env, extra: Env)
    requires Beside(gathered, nodes, end, extra) && AllCombined(nodes, end)
    ensures AllCombined(gathered, end + extra)
  {
    SameLoosened(gathered, nodes, end, extra);
    LooseOfRun(gathered, nodes, end, extra);
    forall g | g in gathered && ReadsLoose(g, Loosened(nodes, end)) ensures Broadcasting(g, end + extra) {
      SameCombined(gathered, nodes, end, extra, Loosened(nodes, end), g);
    }
  }

  lemma SameScalesCombined(gathered: seq<Node>, nodes: seq<Node>, end: Env, extra: Env)
    requires Beside(gathered, nodes, end, extra) && ScalesCombined(nodes, end)
    ensures ScalesCombined(gathered, end + extra)
  {
    SameScales(gathered, nodes, end, extra);
    LooseOfRun(gathered, nodes, end, extra);
    forall g | g in gathered && ReadsLoose(g, Scales(nodes, end)) ensures Broadcasting(g, end + extra) {
      SameCombined(gathered, nodes, end, extra, Scales(nodes, end), g);
    }
  }

  /** A broadcasting node of the old list is a node of the new one. */
  lemma StandsForItself(gathered: seq<Node>, nodes: seq<Node>, extra: set<Name>, n: Node)
    requires AllStand(gathered, nodes, extra) && n in nodes && !Shifting(n.op)
    ensures n in gathered
  {
    var i :| 0 <= i < |nodes| && nodes[i] == n;
    assert StandsFor(gathered[i], nodes[i], extra) && gathered[i] == n;
  }

  lemma SameAbsorbing(n: Node, end: Env, extra: Env, loose: Loose)
    requires end.Keys !! extra.Keys && Broadcasting(n, end)
    ensures Absorbs(n, loose, end + extra) <==> Absorbs(n, loose, end)
  {
  }

  lemma SameRescaled(gathered: seq<Node>, nodes: seq<Node>, end: Env, extra: Env)
    requires Beside(gathered, nodes, end, extra) && ScalesCombined(nodes, end)
    ensures AllRescaled(gathered, end + extra) <==> AllRescaled(nodes, end)
  {
    var loose := Scales(nodes, end);
    SameScales(gathered, nodes, end, extra);
    LooseOfRun(gathered, nodes, end, extra);
    if AllRescaled(nodes, end) {
      forall g | g in gathered && ReadsLoose(g, loose) ensures Absorbs(g, loose, end + extra) {
        SameCombined(gathered, nodes, end, extra, loose, g);
        SameAbsorbing(g, end, extra, loose);
      }
    }
    if AllRescaled(gathered, end + extra) {
      forall n | n in nodes && ReadsLoose(n, loose) ensures Absorbs(n, loose, end) {
        StandsForItself(gathered, nodes, extra.Keys, n);
        SameAbsorbing(n, end, extra, loose);
      }
    }
  }

  // ---- any loose names -----------------------------------------------------------------------------

  /** The loose names that have a value in the run. */
  function Inside(loose: Loose, end: Env): (r: Loose) {
    map n | n in loose && n in end :: loose[n]
  }

  lemma InsideFollows(loose: Loose, end: Env, extra: Env)
    requires Follows(loose, end, end) && end.Keys !! extra.Keys
    ensures Follows(Inside(loose, end), end + extra, end + extra)
  {
    forall n | n in end + extra ensures AgreeAt(Inside(loose, end), n, (end + extra)[n], (end + extra)[n]) {
      if n in end {
        assert AgreeAt(loose, n, end[n], end[n]);
      }
    }
  }

  lemma InsideLive(gathered: seq<Node>, nodes: seq<Node>, end: Env, extra: Env, loose: Loose)
    requires Beside(gathered, nodes, end, extra) && AllLive(nodes, loose, end)
    ensures AllLive(gathered, Inside(loose, end), end + extra)
  {
    forall g | g in gathered ensures Live(g, Inside(loose, end), end + extra) {
      var n := StoodBeside(gathered, nodes, end, extra, g);
      if g.op.DynamicQuantizeLinear? && |g.inputs| == 1 && |g.outputs| == 3 {
        assert Live(n, loose, end) && n.outputs[1] in Outputs(n);
      }
    }
  }

  lemma InsideFits(n: Node, end: Env, extra: Env, loose: Loose, args: seq<Tensor>)
    requires Reads(n, end) && end.Keys !! extra.Keys && Fits(Inside(loose, end), n, end + extra, args)
    ensures Fits(loose, n, end, args) && Args(n, end + extra) == Args(n, end)
  {
    forall i | 0 <= i < |args| ensures AgreeAt(loose, n.inputs[i], end[n.inputs[i]], args[i]) {
      assert AgreeAt(Inside(loose, end), n.inputs[i], (end + extra)[n.inputs[i]], args[i]);
    }
  }

  lemma InsideTolerates(sem: Semantics, n: Node, end: Env, extra: Env, loose: Loose)
    requires Tolerates(sem, n, loose, end) && end.Keys !! extra.Keys && Outputs(n) <= end.Keys
    ensures Tolerates(sem, n, Inside(loose, end), end + extra)
  {
    forall args, j | 0 <= j < |n.outputs| ensures ToleratesAt(sem, n, Inside(loose, end), end + extra, args, j) {
      if Fits(Inside(loose, end), n, end + extra, args) {
        InsideFits(n, end, extra, loose, args);
        assert ToleratesAt(sem, n, loose, end, args, j) && n.outputs[j] in Outputs(n);
      }
    }
  }

  /** A node that reads a loose name tolerates it; if another stands for it, that one does. */
  ghost predicate ToleratedBy(sem: Semantics, g: Node, n: Node, loose: Loose, end: Env, extra: Env) {
    ReadsLoose(n, loose) ==>
      if g == n then Tolerates(sem, n, loose, end) else Tolerates(sem, g, Inside(loose, end), end + extra)
  }

  lemma StandsTolerates(sem: Semantics, g: Node, n: Node, end: Env, extra: Env, loose: Loose)
    requires StandsFor(g, n, extra.Keys) && end.Keys !! extra.Keys && Outputs(n) <= end.Keys && Reads(n, end)
    requires Computes(sem, g, end + extra) && Follows(loose, end, end) && ToleratedBy(sem, g, n, loose, end, extra)
    ensures Tolerates(sem, g, Inside(loose, end), end + extra)
  {
    if !ReadsLoose(n, loose) {
      InsideFollows(loose, end, extra);
      if ReadsLoose(g, Inside(loose, end)) {
        ReadsLooseToo(g, n, Inside(loose, end), extra.Keys);
      }
      ExactInputs(sem, g, Inside(loose, end), end + extra);
    } else if g == n {
      InsideTolerates(sem, n, end, extra, loose);
    }
  }

  lemma InsideKeeps(loose: Loose, gone: set<Name>, end: Env, extra: Env, after: Env)
    requires end.Keys !! extra.Keys && Keeps(Inside(loose, end), gone, end + extra, after)
    ensures Keeps(loose, gone, end, after)
  {
    forall n | n in end && n !in gone ensures n in after && AgreeAt(loose, n, end[n], after[n]) {
      assert n in end + extra && AgreeAt(Inside(loose, end), n, (end + extra)[n], after[n]);
    }
  }
}
