/**
  Workflow proposals: structural validation, the deterministic execution order, and the
  bounded parallel schedule.
 */
module Proposal {
  import opened Text
  import opened Ids
  import opened Dag
  import opened Scheduling

  datatype Node = Node(nodeId: Id, capabilityId: string, capabilityVersion: string, artifactDigest: string)

  datatype Edge = Edge(from: Id, to: Id)

  datatype MappingSource = InitialInput | NodeOutput(nodeId: Id)

  datatype Mapping = Mapping(source: MappingSource, sourcePath: string, target: Id, targetPath: string)

  /** `initialInputBytes` is the size of the serialized initial input. */
  datatype WorkflowProposal = WorkflowProposal(
    kind: string, schemaVersion: string, proposalId: string, workspaceId: string,
    nodes: seq<Node>, edges: seq<Edge>, mappings: seq<Mapping>, initialInputBytes: nat)

  datatype Limits = Limits(maxNodes: nat, maxEdges: nat, maxMappings: nat, maxInitialInputBytes: nat)

  datatype Code =
    | InvalidLiteral | MissingRequiredField
    | NodeLimitExceeded | EdgeLimitExceeded | MappingLimitExceeded | PayloadLimitExceeded
    | DuplicateNodeId | UnknownEdgeEndpoint | SelfLoopEdge | DuplicateEdge | CyclicGraph
    | UnknownMappingEndpoint | AmbiguousMultiWriterTarget | MissingDependencyEdgeForMapping

  datatype Path =
    | Top(field: string)
    | NodeAt(node: nat, field: string)
    | EdgeAt(edge: nat, field: string)
    | MappingAt(mapping: nat, field: string)
    | Target(target: Id, path: string)

  datatype Error = Error(code: Code, path: Path)

  datatype Outcome = Accepted(executionOrder: seq<Id>) | Rejected(errors: seq<Error>)

  // ---- the graph a proposal declares

  function NodeIds(nodes: seq<Node>): (r: set<Id>) {
    set i | 0 <= i < |nodes| :: nodes[i].nodeId
  }

  /** The edges kept from a list: both ends declared and distinct. */
  function Declared(ids: set<Id>, edges: seq<Edge>): (r: set<(Id, Id)>) {
    set i | 0 <= i < |edges| && edges[i].from != edges[i].to && edges[i].from in ids && edges[i].to in ids
      :: (edges[i].from, edges[i].to)
  }

  function GraphOf(p: WorkflowProposal): (r: Graph) {
    Graph(NodeIds(p.nodes), Declared(NodeIds(p.nodes), p.edges))
  }

  // ---- what a structurally valid proposal is

  ghost predicate WellFormed(p: WorkflowProposal, limits: Limits) {
    && HeaderWellFormed(p, limits)
    && NodesWellFormed(p.nodes)
    && EdgesWellFormed(NodeIds(p.nodes), p.edges)
    && MappingsWellFormed(GraphOf(p), p.mappings)
  }

  predicate HeaderWellFormed(p: WorkflowProposal, limits: Limits) {
    && p.kind == "workflow_proposal" && p.schemaVersion == "1.0.0"
    && !Blank(p.proposalId) && !Blank(p.workspaceId)
    && |p.nodes| <= limits.maxNodes && |p.edges| <= limits.maxEdges && |p.mappings| <= limits.maxMappings
    && p.initialInputBytes <= limits.maxInitialInputBytes
  }

  ghost predicate NodesWellFormed(nodes: seq<Node>) {
    && (forall i :: 0 <= i < |nodes| ==> NodeComplete(nodes[i]))
    && (forall i, j :: 0 <= i < j < |nodes| ==> nodes[i].nodeId != nodes[j].nodeId)
  }

  ghost predicate EdgesWellFormed(ids: set<Id>, edges: seq<Edge>) {
    && (forall i :: 0 <= i < |edges| ==>
          edges[i].from != edges[i].to && edges[i].from in ids && edges[i].to in ids)
    && Distinct(edges)
  }

  ghost predicate MappingsWellFormed(g: Graph, mappings: seq<Mapping>) {
    && (forall i :: 0 <= i < |mappings| ==> !Blank(mappings[i].sourcePath) && !Blank(mappings[i].targetPath))
    && (forall i :: 0 <= i < |mappings| ==> Wired(g, mappings[i]))
    && (forall i, j :: 0 <= i < j < |mappings| ==> WriterKey(mappings[i]) != WriterKey(mappings[j]))
  }

  /** The target exists and a source node has a declared edge to it. */
  predicate Wired(g: Graph, m: Mapping) {
    m.target in g.nodes &&
    (m.source.NodeOutput? ==> m.source.nodeId in g.nodes && (m.source.nodeId, m.target) in g.edges)
  }

  function WriterKey(m: Mapping): (r: (Id, string)) {
    (m.target, m.targetPath)
  }

  // ---- the errors, item by item

  function RequireText(value: string, path: Path): (r: seq<Error>) {
    if Blank(value) then [Error(MissingRequiredField, path)] else []
  }

  function Fail(condition: bool, code: Code, path: Path): (r: seq<Error>) {
    if condition then [Error(code, path)] else []
  }

  function HeaderErrors(p: WorkflowProposal, limits: Limits): (r: seq<Error>) {
    Fail(p.kind != "workflow_proposal", InvalidLiteral, Top("kind"))
    + Fail(p.schemaVersion != "1.0.0", InvalidLiteral, Top("schema_version"))
    + RequireText(p.proposalId, Top("proposal_id"))
    + RequireText(p.workspaceId, Top("workspace_id"))
    + Fail(|p.nodes| > limits.maxNodes, NodeLimitExceeded, Top("nodes"))
    + Fail(|p.edges| > limits.maxEdges, EdgeLimitExceeded, Top("edges"))
    + Fail(|p.mappings| > limits.maxMappings, MappingLimitExceeded, Top("mappings"))
    + Fail(p.initialInputBytes > limits.maxInitialInputBytes, PayloadLimitExceeded, Top("initial_input"))
  }

  function NodeErrorsAt(nodes: seq<Node>, i: nat): (r: seq<Error>)
    requires i < |nodes|
  {
    var n := nodes[i];
    RequireText(n.nodeId.text, NodeAt(i, "node_id"))
    + RequireText(n.capabilityId, NodeAt(i, "capability_id"))
    + RequireText(n.capabilityVersion, NodeAt(i, "capability_version"))
    + RequireText(n.artifactDigest, NodeAt(i, "artifact_digest"))
    + Fail(n.nodeId in NodeIds(nodes[..i]), DuplicateNodeId, NodeAt(i, "node_id"))
  }

  function EdgeErrorsAt(ids: set<Id>, edges: seq<Edge>, i: nat): (r: seq<Error>)
    requires i < |edges|
  {
    var e := edges[i];
    if e.from == e.to then [Error(SelfLoopEdge, EdgeAt(i, ""))]
    else if e.from !in ids then [Error(UnknownEdgeEndpoint, EdgeAt(i, "from_node_id"))]
    else if e.to !in ids then [Error(UnknownEdgeEndpoint, EdgeAt(i, "to_node_id"))]
    else Fail((e.from, e.to) in Declared(ids, edges[..i]), DuplicateEdge, EdgeAt(i, ""))
  }

  function MappingErrorsAt(g: Graph, mappings: seq<Mapping>, i: nat): (r: seq<Error>)
    requires i < |mappings|
  {
    var m := mappings[i];
    RequireText(m.sourcePath, MappingAt(i, "source_path"))
    + RequireText(m.targetPath, MappingAt(i, "target_path"))
    + if m.target !in g.nodes then [Error(UnknownMappingEndpoint, MappingAt(i, "target_node_id"))]
      else if m.source.NodeOutput? && m.source.nodeId !in g.nodes then
        [Error(UnknownMappingEndpoint, MappingAt(i, "source"))]
      else if m.source.NodeOutput? && (m.source.nodeId, m.target) !in g.edges then
        [Error(MissingDependencyEdgeForMapping, MappingAt(i, ""))]
      else []
  }

  function NodeErrors(nodes: seq<Node>, k: nat): (r: seq<Error>)
    requires k <= |nodes|
  {
    if k == 0 then [] else NodeErrors(nodes, k - 1) + NodeErrorsAt(nodes, k - 1)
  }

  function EdgeErrors(ids: set<Id>, edges: seq<Edge>, k: nat): (r: seq<Error>)
    requires k <= |edges|
  {
    if k == 0 then [] else EdgeErrors(ids, edges, k - 1) + EdgeErrorsAt(ids, edges, k - 1)
  }

  function MappingErrors(g: Graph, mappings: seq<Mapping>, k: nat): (r: seq<Error>)
    requires k <= |mappings|
  {
    if k == 0 then [] else MappingErrors(g, mappings, k - 1) + MappingErrorsAt(g, mappings, k - 1)
  }

  /** A target path two accepted mappings write. */
  ghost predicate Contested(g: Graph, mappings: seq<Mapping>, key: (Id, string)) {
    exists i, j :: 0 <= i < j < |mappings| && Wired(g, mappings[i]) && Wired(g, mappings[j])
      && WriterKey(mappings[i]) == key && WriterKey(mappings[j]) == key
  }

  /** Target paths in the order of a `BTreeMap`: by target, then by path. */
  predicate KeyLess(a: (Id, string), b: (Id, string)) {
    Less(a.0, b.0) || (a.0 == b.0 && Less(Id(a.1), Id(b.1)))
  }

  lemma KeyTotal(a: (Id, string), b: (Id, string))
    ensures a == b || KeyLess(a, b) || KeyLess(b, a)
  {
    LessTotal(a.0, b.0);
    LessTotal(Id(a.1), Id(b.1));
  }

  lemma KeyIrreflexive(a: (Id, string))
    ensures !KeyLess(a, a)
  {
    LessIrreflexive(a.0);
    LessIrreflexive(Id(a.1));
  }

  lemma KeyTransitive(a: (Id, string), b: (Id, string), c: (Id, string))
    requires KeyLess(a, b) && KeyLess(b, c)
    ensures KeyLess(a, c)
  {
    if Less(a.0, b.0) && Less(b.0, c.0) {
      LessTransitive(a.0, b.0, c.0);
    } else if a.0 == b.0 == c.0 {
      LessTransitive(Id(a.1), Id(b.1), Id(c.1));
    }
  }

  predicate IsWriterError(e: Error) {
    e.code == AmbiguousMultiWriterTarget && e.path.Target?
  }

  function KeyOf(e: Error): (key: (Id, string))
    requires IsWriterError(e)
  {
    (e.path.target, e.path.path)
  }

  ghost predicate InKeyOrder(errors: seq<Error>) {
    && (forall e :: e in errors ==> IsWriterError(e))
    && forall i, j :: 0 <= i < j < |errors| ==> KeyLess(KeyOf(errors[i]), KeyOf(errors[j]))
  }

  /** Exactly one error for every contested target, and no other, in the order of the targets. */
  ghost predicate WriterErrors(g: Graph, mappings: seq<Mapping>, errors: seq<Error>) {
    && InKeyOrder(errors)
    && forall e :: e in errors <==>
         IsWriterError(e) && Contested(g, mappings, KeyOf(e))
  }

  /** Errors in key order are determined by which they are. */
  lemma {:induction false} KeyOrderUnique(a: seq<Error>, b: seq<Error>)
    requires InKeyOrder(a) && InKeyOrder(b) && forall e :: e in a <==> e in b
    ensures a == b
  {
    if b != [] {
      assert b[0] in b;
    }
    if a != [] {
      assert a[0] in a && b != [];
      if a[0] != b[0] {
        var i :| 0 <= i < |a| && a[i] == b[0];
        var j :| 0 <= j < |b| && b[j] == a[0];
        KeyTransitive(KeyOf(a[0]), KeyOf(b[0]), KeyOf(a[0]));
        KeyIrreflexive(KeyOf(a[0]));
        assert false;
      }
      KeyIrreflexive(KeyOf(a[0]));
      assert a[0] !in a[1..] && b[0] !in b[1..] && a == [a[0]] + a[1..] && b == [b[0]] + b[1..];
      forall e ensures (e in a[1..] <==> e in a && e != a[0]) && (e in b[1..] <==> e in b && e != b[0]) {
      }
      KeyOrderUnique(a[1..], b[1..]);
    }
  }

  /** A proposal has one list of multi-writer errors. */
  lemma WriterErrorsUnique(g: Graph, mappings: seq<Mapping>, a: seq<Error>, b: seq<Error>)
    requires WriterErrors(g, mappings, a) && WriterErrors(g, mappings, b)
    ensures a == b
  {
    KeyOrderUnique(a, b);
  }

  // ---- the item errors are empty exactly on well-formed items

  lemma {:induction false} NoNodeErrors(nodes: seq<Node>, k: nat)
    requires k <= |nodes|
    ensures NodeErrors(nodes, k) == [] <==> NodesWellFormed(nodes[..k])
  {
    if k > 0 {
      NoNodeErrors(nodes, k - 1);
      assert nodes[..k] == nodes[..k - 1] + [nodes[k - 1]];
      NodesWellFormedStep(nodes[..k - 1], nodes[k - 1]);
      NodeErrorsStep(nodes, k);
    }
  }

  lemma NodeErrorsStep(nodes: seq<Node>, k: nat)
    requires 0 < k <= |nodes|
    ensures NodeErrors(nodes, k) == [] <==>
            && NodeErrors(nodes, k - 1) == [] && NodeComplete(nodes[k - 1])
            && nodes[k - 1].nodeId !in NodeIds(nodes[..k - 1])
  {
    NoNodeErrorsAt(nodes, k - 1);
  }

  predicate NodeComplete(n: Node) {
    !Blank(n.nodeId.text) && !Blank(n.capabilityId) && !Blank(n.capabilityVersion) && !Blank(n.artifactDigest)
  }

  lemma NoNodeErrorsAt(nodes: seq<Node>, i: nat)
    requires i < |nodes|
    ensures NodeErrorsAt(nodes, i) == [] <==> NodeComplete(nodes[i]) && nodes[i].nodeId !in NodeIds(nodes[..i])
  {
  }

  lemma NodesWellFormedStep(nodes: seq<Node>, n: Node)
    ensures NodesWellFormed(nodes + [n]) <==>
            NodesWellFormed(nodes) && NodeComplete(n) && n.nodeId !in NodeIds(nodes)
  {
    var all := nodes + [n];
    assert all[|nodes|] == n;
    assert forall i :: 0 <= i < |nodes| ==> all[i] == nodes[i];
  }

  predicate IsNewEdge(ids: set<Id>, before: seq<Edge>, e: Edge) {
    e.from != e.to && e.from in ids && e.to in ids && (e.from, e.to) !in Declared(ids, before)
  }

  lemma {:induction false} NoEdgeErrors(ids: set<Id>, edges: seq<Edge>, k: nat)
    requires k <= |edges|
    ensures EdgeErrors(ids, edges, k) == [] <==> EdgesWellFormed(ids, edges[..k])
  {
    if k > 0 {
      NoEdgeErrors(ids, edges, k - 1);
      EdgesWellFormedUpTo(ids, edges, k);
      EdgeErrorsStep(ids, edges, k);
    }
  }

  lemma EdgesWellFormedUpTo(ids: set<Id>, edges: seq<Edge>, k: nat)
    requires 0 < k <= |edges|
    ensures EdgesWellFormed(ids, edges[..k]) <==>
            EdgesWellFormed(ids, edges[..k - 1]) && IsNewEdge(ids, edges[..k - 1], edges[k - 1])
  {
    assert edges[..k] == edges[..k - 1] + [edges[k - 1]];
    EdgesWellFormedStep(ids, edges[..k - 1], edges[k - 1]);
  }

  lemma EdgeErrorsStep(ids: set<Id>, edges: seq<Edge>, k: nat)
    requires 0 < k <= |edges|
    ensures EdgeErrors(ids, edges, k) == [] <==>
            EdgeErrors(ids, edges, k - 1) == [] && IsNewEdge(ids, edges[..k - 1], edges[k - 1])
  {
  }

  lemma EdgesWellFormedStep(ids: set<Id>, edges: seq<Edge>, e: Edge)
    ensures EdgesWellFormed(ids, edges + [e]) <==> EdgesWellFormed(ids, edges) && IsNewEdge(ids, edges, e)
  {
    var all := edges + [e];
    assert all[|edges|] == e;
    assert forall i :: 0 <= i < |edges| ==> all[i] == edges[i];
    if (e.from, e.to) in Declared(ids, edges) {
      var i :| 0 <= i < |edges| && (edges[i].from, edges[i].to) == (e.from, e.to);
      assert all[i] == all[|edges|];
    }
  }

  lemma {:induction false} NoMappingErrors(g: Graph, mappings: seq<Mapping>, k: nat)
    requires k <= |mappings|
    ensures MappingErrors(g, mappings, k) == [] <==>
            forall i :: 0 <= i < k ==>
              !Blank(mappings[i].sourcePath) && !Blank(mappings[i].targetPath) && Wired(g, mappings[i])
  {
    if k > 0 {
      NoMappingErrors(g, mappings, k - 1);
      var here := MappingErrorsAt(g, mappings, k - 1);
      var m := mappings[k - 1];
      assert here == [] <==> !Blank(m.sourcePath) && !Blank(m.targetPath) && Wired(g, m);
    }
  }

  lemma NoHeaderErrors(p: WorkflowProposal, limits: Limits)
    ensures HeaderErrors(p, limits) == [] <==> HeaderWellFormed(p, limits)
  {
    var texts := RequireText(p.proposalId, Top("proposal_id")) + RequireText(p.workspaceId, Top("workspace_id"));
    assert texts == [] <==> !Blank(p.proposalId) && !Blank(p.workspaceId);
  }

  lemma AllEmpty(a: seq<Error>, b: seq<Error>, c: seq<Error>, d: seq<Error>, e: seq<Error>)
    ensures a + b + c + d + e == [] <==> a == [] && b == [] && c == [] && d == [] && e == []
  {
    assert |a + b + c + d + e| == |a| + |b| + |c| + |d| + |e|;
  }

  /** The complete list of structural errors is empty exactly on well-formed proposals. */
  lemma NoErrorsMeansWellFormed(p: WorkflowProposal, limits: Limits, writers: seq<Error>)
    requires WriterErrors(GraphOf(p), p.mappings, writers)
    ensures HeaderErrors(p, limits) + NodeErrors(p.nodes, |p.nodes|) + EdgeErrors(NodeIds(p.nodes), p.edges, |p.edges|)
              + MappingErrors(GraphOf(p), p.mappings, |p.mappings|) + writers == []
            <==> WellFormed(p, limits)
  {
    var g := GraphOf(p);
    AllEmpty(HeaderErrors(p, limits), NodeErrors(p.nodes, |p.nodes|), EdgeErrors(NodeIds(p.nodes), p.edges, |p.edges|),
      MappingErrors(g, p.mappings, |p.mappings|), writers);
    NoHeaderErrors(p, limits);
    NoNodeErrors(p.nodes, |p.nodes|);
    NoEdgeErrors(NodeIds(p.nodes), p.edges, |p.edges|);
    assert p.nodes[..|p.nodes|] == p.nodes && p.edges[..|p.edges|] == p.edges;
    MappingsClean(g, p.mappings, writers);
  }

  lemma MappingsClean(g: Graph, mappings: seq<Mapping>, writers: seq<Error>)
    requires WriterErrors(g, mappings, writers)
    ensures MappingErrors(g, mappings, |mappings|) == [] && writers == [] <==> MappingsWellFormed(g, mappings)
  {
    NoMappingErrors(g, mappings, |mappings|);
    NoWriterErrors(g, mappings, writers);
  }

  lemma NoWriterErrors(g: Graph, mappings: seq<Mapping>, writers: seq<Error>)
    requires WriterErrors(g, mappings, writers)
    ensures writers == [] <==> forall key :: !Contested(g, mappings, key)
    ensures (forall i :: 0 <= i < |mappings| ==> Wired(g, mappings[i])) ==>
            (writers == []
             <==> forall i, j :: 0 <= i < j < |mappings| ==> WriterKey(mappings[i]) != WriterKey(mappings[j]))
  {
    if writers != [] {
      var e := writers[0];
      assert e in writers;
      assert Contested(g, mappings, (e.path.target, e.path.path));
    }
    forall key | Contested(g, mappings, key) ensures writers != [] {
      assert Error(AmbiguousMultiWriterTarget, Target(key.0, key.1)) in writers;
    }
    forall i, j | 0 <= i < j < |mappings| && Wired(g, mappings[i]) && Wired(g, mappings[j])
      ensures WriterKey(mappings[i]) == WriterKey(mappings[j]) ==> Contested(g, mappings, WriterKey(mappings[i]))
    {
    }
  }

  // ---- the passes

  method CheckNodes(nodes: seq<Node>) returns (ids: set<Id>, errors: seq<Error>)
    ensures ids == NodeIds(nodes)
    ensures errors == NodeErrors(nodes, |nodes|)
  {
    ids, errors := {}, [];
    for i := 0 to |nodes|
      invariant ids == NodeIds(nodes[..i])
      invariant errors == NodeErrors(nodes, i)
    {
      var n := nodes[i];
      errors := errors + (RequireText(n.nodeId.text, NodeAt(i, "node_id"))
        + RequireText(n.capabilityId, NodeAt(i, "capability_id"))
        + RequireText(n.capabilityVersion, NodeAt(i, "capability_version"))
        + RequireText(n.artifactDigest, NodeAt(i, "artifact_digest"))
        + Fail(n.nodeId in ids, DuplicateNodeId, NodeAt(i, "node_id")));
      NodeIdsStep(nodes, i);
      ids := ids + {n.nodeId};
    }
    assert nodes[..|nodes|] == nodes;
  }

  lemma NodeIdsStep(nodes: seq<Node>, i: nat)
    requires i < |nodes|
    ensures NodeIds(nodes[..i + 1]) == NodeIds(nodes[..i]) + {nodes[i].nodeId}
  {
    var a, b := nodes[..i + 1], nodes[..i];
    forall j | 0 <= j < i ensures a[j] == b[j] {}
    assert a[i] == nodes[i];
  }

  lemma AddEdgeCounts(g: Graph, inDegree: map<Id, nat>, a: Id, b: Id)
    requires Counts(g, {}, inDegree) && a in g.nodes && b in g.nodes && (a, b) !in g.edges
    ensures Counts(Graph(g.nodes, g.edges + {(a, b)}), {}, inDegree[b := inDegree[b] + 1])
  {
    var h := Graph(g.nodes, g.edges + {(a, b)});
    var degrees := inDegree[b := inDegree[b] + 1];
    forall n {:trigger CountOf(h, {}, degrees, n)} | n in h.nodes ensures CountOf(h, {}, degrees, n) {
      assert CountOf(g, {}, inDegree, n);
      if n == b {
        assert a !in g.Preds(b);
        assert h.Preds(b) - {} == (g.Preds(b) - {}) + {a};
      } else {
        assert h.Preds(n) == g.Preds(n);
      }
    }
  }

  /** Recording one new edge in the adjacency map and the in-degrees. */
  method RecordEdge(ghost g: Graph, adjacency: map<Id, set<Id>>, inDegree: map<Id, nat>, a: Id, b: Id)
    returns (adjacency': map<Id, set<Id>>, inDegree': map<Id, nat>)
    requires Indexed(g, adjacency, inDegree) && a in g.nodes && b in g.nodes && (a, b) !in g.edges
    ensures Indexed(Graph(g.nodes, g.edges + {(a, b)}), adjacency', inDegree')
  {
    AddEdgeCounts(g, inDegree, a, b);
    adjacency' := adjacency[a := Successors(adjacency, a) + {b}];
    inDegree' := inDegree[b := inDegree[b] + 1];
  }

  lemma DeclaredStep(ids: set<Id>, edges: seq<Edge>, i: nat)
    requires i < |edges|
    ensures Declared(ids, edges[..i + 1]) == Declared(ids, edges[..i]) +
            (if edges[i].from != edges[i].to && edges[i].from in ids && edges[i].to in ids
             then {(edges[i].from, edges[i].to)} else {})
  {
    var a, b := edges[..i + 1], edges[..i];
    forall j | 0 <= j < i ensures a[j] == b[j] {}
    assert a[i] == edges[i];
  }

  lemma EmptyIndexed(ids: set<Id>)
    ensures Indexed(Graph(ids, {}), map[], map n | n in ids :: 0)
  {
    var g := Graph(ids, {});
    var degrees := map n | n in ids :: 0;
    forall n {:trigger CountOf(g, {}, degrees, n)} | n in ids ensures CountOf(g, {}, degrees, n) {
      assert g.Preds(n) - {} == {};
    }
  }

  method CheckEdges(ids: set<Id>, edges: seq<Edge>)
    returns (declared: set<(Id, Id)>, adjacency: map<Id, set<Id>>, inDegree: map<Id, nat>, errors: seq<Error>)
    ensures declared == Declared(ids, edges)
    ensures Indexed(Graph(ids, declared), adjacency, inDegree)
    ensures errors == EdgeErrors(ids, edges, |edges|)
  {
    declared, adjacency, inDegree, errors := {}, map[], map n | n in ids :: 0, [];
    EmptyIndexed(ids);
    for i := 0 to |edges|
      invariant declared == Declared(ids, edges[..i])
      invariant Indexed(Graph(ids, declared), adjacency, inDegree)
      invariant errors == EdgeErrors(ids, edges, i)
    {
      var e := edges[i];
      DeclaredStep(ids, edges, i);
      if e.from == e.to {
        errors := errors + [Error(SelfLoopEdge, EdgeAt(i, ""))];
      } else if e.from !in ids {
        errors := errors + [Error(UnknownEdgeEndpoint, EdgeAt(i, "from_node_id"))];
      } else if e.to !in ids {
        errors := errors + [Error(UnknownEdgeEndpoint, EdgeAt(i, "to_node_id"))];
      } else if (e.from, e.to) in declared {
        errors := errors + [Error(DuplicateEdge, EdgeAt(i, ""))];
      } else {
        adjacency, inDegree := RecordEdge(Graph(ids, declared), adjacency, inDegree, e.from, e.to);
        declared := declared + {(e.from, e.to)};
      }
    }
    assert edges[..|edges|] == edges;
  }

  /** How many accepted mappings write to `key`. */
  function Writers(g: Graph, mappings: seq<Mapping>, k: nat, key: (Id, string)): (r: nat)
    requires k <= |mappings|
  {
    if k == 0 then 0
    else
      var m := mappings[k - 1];
      Writers(g, mappings, k - 1, key) + if Wired(g, m) && WriterKey(m) == key then 1 else 0
  }

  ghost predicate WrittenBefore(g: Graph, mappings: seq<Mapping>, k: nat, key: (Id, string))
    requires k <= |mappings|
  {
    exists i :: 0 <= i < k && Wired(g, mappings[i]) && WriterKey(mappings[i]) == key
  }

  lemma {:induction false} WritersCount(g: Graph, mappings: seq<Mapping>, k: nat, key: (Id, string))
    requires k <= |mappings|
    ensures Writers(g, mappings, k, key) >= 1 <==> WrittenBefore(g, mappings, k, key)
    ensures Writers(g, mappings, k, key) > 1 <==> Contested(g, mappings[..k], key)
  {
    if k > 0 {
      WritersCount(g, mappings, k - 1, key);
      ContestedStep(g, mappings, k - 1, key);
    }
  }

  lemma StaysContested(g: Graph, mappings: seq<Mapping>, k: nat, key: (Id, string))
    requires k < |mappings|
    requires Contested(g, mappings[..k], key)
             || (WrittenBefore(g, mappings, k, key) && Wired(g, mappings[k]) && WriterKey(mappings[k]) == key)
    ensures Contested(g, mappings[..k + 1], key)
  {
    var front, all := mappings[..k], mappings[..k + 1];
    if Contested(g, front, key) {
      var i, j :| 0 <= i < j < |front| && Wired(g, front[i]) && Wired(g, front[j])
        && WriterKey(front[i]) == key && WriterKey(front[j]) == key;
      assert all[i] == front[i] && all[j] == front[j];
    } else {
      var i :| 0 <= i < k && Wired(g, mappings[i]) && WriterKey(mappings[i]) == key;
      assert all[i] == mappings[i] && all[k] == mappings[k];
    }
  }

  lemma WasContested(g: Graph, mappings: seq<Mapping>, k: nat, key: (Id, string))
    requires k < |mappings| && Contested(g, mappings[..k + 1], key)
    ensures Contested(g, mappings[..k], key)
            || (WrittenBefore(g, mappings, k, key) && Wired(g, mappings[k]) && WriterKey(mappings[k]) == key)
  {
    var front, all := mappings[..k], mappings[..k + 1];
    var i, j :| && 0 <= i < j < |all| && Wired(g, all[i]) && Wired(g, all[j])
                && WriterKey(all[i]) == key && WriterKey(all[j]) == key;
    assert all[i] == mappings[i] && all[j] == mappings[j];
    if j < k {
      assert front[i] == all[i] && front[j] == all[j];
    }
  }

  lemma ContestedStep(g: Graph, mappings: seq<Mapping>, k: nat, key: (Id, string))
    requires k < |mappings|
    ensures Contested(g, mappings[..k + 1], key) <==>
      Contested(g, mappings[..k], key)
      || (WrittenBefore(g, mappings, k, key) && Wired(g, mappings[k]) && WriterKey(mappings[k]) == key)
  {
    if Contested(g, mappings[..k + 1], key) {
      WasContested(g, mappings, k, key);
    } else if Contested(g, mappings[..k], key)
        || (WrittenBefore(g, mappings, k, key) && Wired(g, mappings[k]) && WriterKey(mappings[k]) == key) {
      StaysContested(g, mappings, k, key);
    }
  }

  method CheckMappings(g: Graph, mappings: seq<Mapping>) returns (counts: map<(Id, string), nat>, errors: seq<Error>)
    ensures errors == MappingErrors(g, mappings, |mappings|)
    ensures forall key :: (if key in counts then counts[key] else 0) == Writers(g, mappings, |mappings|, key)
  {
    counts, errors := map[], [];
    for i := 0 to |mappings|
      invariant errors == MappingErrors(g, mappings, i)
      invariant forall key :: (if key in counts then counts[key] else 0) == Writers(g, mappings, i, key)
    {
      var m := mappings[i];
      errors := errors + (RequireText(m.sourcePath, MappingAt(i, "source_path"))
        + RequireText(m.targetPath, MappingAt(i, "target_path"))
        + if m.target !in g.nodes then [Error(UnknownMappingEndpoint, MappingAt(i, "target_node_id"))]
          else if m.source.NodeOutput? && m.source.nodeId !in g.nodes then
            [Error(UnknownMappingEndpoint, MappingAt(i, "source"))]
          else if m.source.NodeOutput? && (m.source.nodeId, m.target) !in g.edges then
            [Error(MissingDependencyEdgeForMapping, MappingAt(i, ""))]
          else []);
      if Wired(g, m) {
        var key := WriterKey(m);
        counts := counts[key := (if key in counts then counts[key] else 0) + 1];
      }
    }
  }

  /** The first key that a `BTreeMap` yields. */
  method FirstKey(keys: set<(Id, string)>) returns (m: (Id, string))
    requires keys != {}
    ensures m in keys && forall x :: x in keys && x != m ==> KeyLess(m, x)
  {
    var rest := keys;
    m :| m in rest;
    rest := rest - {m};
    while rest != {}
      invariant rest <= keys && m in keys && m !in rest
      invariant forall x :: x in keys && x !in rest && x != m ==> KeyLess(m, x)
      decreases rest
    {
      var x :| x in rest;
      KeyTotal(m, x);
      if KeyLess(x, m) {
        forall y | y in keys && y !in rest && y != m ensures KeyLess(x, y) {
          KeyTransitive(x, m, y);
        }
        m := x;
      }
      rest := rest - {x};
    }
  }

  /** One error for every target path counted more than once. */
  method CheckWriters(ghost g: Graph, ghost mappings: seq<Mapping>,
                      counts: map<(Id, string), nat>) returns (errors: seq<Error>)
    requires forall key :: (if key in counts then counts[key] else 0) == Writers(g, mappings, |mappings|, key)
    ensures WriterErrors(g, mappings, errors)
  {
    errors := [];
    var keys := counts.Keys;
    while keys != {}
      invariant keys <= counts.Keys && InKeyOrder(errors)
      invariant forall e, k :: e in errors && k in keys ==> KeyLess(KeyOf(e), k)
      invariant forall e :: e in errors <==> IsWriterError(e) && KeyOf(e) in counts.Keys - keys && counts[KeyOf(e)] > 1
      decreases keys
    {
      var key := FirstKey(keys);
      if counts[key] > 1 {
        errors := errors + [Error(AmbiguousMultiWriterTarget, Target(key.0, key.1))];
      }
      keys := keys - {key};
    }
    assert mappings[..|mappings|] == mappings;
    forall key: (Id, string) ensures (key in counts && counts[key] > 1) <==> Contested(g, mappings, key) {
      WritersCount(g, mappings, |mappings|, key);
    }
  }

  // ---- validation and the execution order

  /** All errors found before the order is computed. */
  ghost predicate StructuralErrors(p: WorkflowProposal, limits: Limits, errors: seq<Error>) {
    exists writers :: WriterErrors(GraphOf(p), p.mappings, writers)
      && errors == HeaderErrors(p, limits) + NodeErrors(p.nodes, |p.nodes|)
                   + EdgeErrors(NodeIds(p.nodes), p.edges, |p.edges|)
                   + MappingErrors(GraphOf(p), p.mappings, |p.mappings|) + writers
  }

  /**
    A proposal is accepted exactly when it is well formed and its graph has no cycle; its
    execution order is then the lexicographically smallest topological order.
   */
  method CanonicalizeProposal(p: WorkflowProposal, limits: Limits) returns (r: Outcome)
    ensures r.Accepted? <==> WellFormed(p, limits) && Acyclic(GraphOf(p))
    ensures r.Accepted? ==> IsTopologicalOrder(GraphOf(p), r.executionOrder)
    ensures r.Accepted? ==> forall t :: IsTopologicalOrder(GraphOf(p), t) ==> LexAtMost(r.executionOrder, t)
    ensures !WellFormed(p, limits) ==> r.Rejected? && StructuralErrors(p, limits, r.errors)
    ensures WellFormed(p, limits) && !Acyclic(GraphOf(p)) ==> r == Rejected([Error(CyclicGraph, Top("edges"))])
  {
    var errors := HeaderErrors(p, limits);
    var ids, nodeErrors := CheckNodes(p.nodes);
    var declared, adjacency, inDegree, edgeErrors := CheckEdges(ids, p.edges);
    var g := Graph(ids, declared);
    var counts, mappingErrors := CheckMappings(g, p.mappings);
    var writerErrors := CheckWriters(g, p.mappings, counts);
    errors := errors + nodeErrors + edgeErrors + mappingErrors + writerErrors;
    NoErrorsMeansWellFormed(p, limits, writerErrors);
    if errors != [] {
      return Rejected(errors);
    }
    var order := TopologicalOrder(g, ids, adjacency, inDegree);
    if order.None? {
      return Rejected([Error(CyclicGraph, Top("edges"))]);
    }
    return Accepted(order.value);
  }
}
