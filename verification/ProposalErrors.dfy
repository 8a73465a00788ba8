/** Which structural errors a malformed proposal gets, and in which order. */
module ProposalErrors {
  import opened Text
  import opened Ids
  import opened Dag
  import opened Proposal

  // ---- which errors are due

  ghost predicate IsNode(p: WorkflowProposal, id: Id) {
    exists k :: 0 <= k < |p.nodes| && p.nodes[k].nodeId == id
  }

  /** Two different nodes, and an edge listed from the one to the other. */
  ghost predicate IsEdge(p: WorkflowProposal, a: Id, b: Id) {
    a != b && IsNode(p, a) && IsNode(p, b) && exists k :: 0 <= k < |p.edges| && p.edges[k] == Edge(a, b)
  }

  /** The mapping goes to a node, from the initial input or along an edge. */
  ghost predicate GoesAlong(p: WorkflowProposal, m: Mapping) {
    IsNode(p, m.target) && (m.source == InitialInput || IsEdge(p, m.source.nodeId, m.target))
  }

  ghost predicate HeaderDue(p: WorkflowProposal, limits: Limits, code: Code, field: string) {
    match code
    case InvalidLiteral =>
      || (field == "kind" && p.kind != "workflow_proposal")
      || (field == "schema_version" && p.schemaVersion != "1.0.0")
    case MissingRequiredField =>
      (field == "proposal_id" && Blank(p.proposalId)) || (field == "workspace_id" && Blank(p.workspaceId))
    case NodeLimitExceeded => field == "nodes" && limits.maxNodes < |p.nodes|
    case EdgeLimitExceeded => field == "edges" && limits.maxEdges < |p.edges|
    case MappingLimitExceeded => field == "mappings" && limits.maxMappings < |p.mappings|
    case PayloadLimitExceeded => field == "initial_input" && limits.maxInitialInputBytes < p.initialInputBytes
    case _ => false
  }

  /** A blank field; an id that an earlier node has. */
  ghost predicate NodeDue(p: WorkflowProposal, i: nat, code: Code, field: string)
    requires i < |p.nodes|
  {
    var n := p.nodes[i];
    match code
    case MissingRequiredField =>
      || (field == "node_id" && Blank(n.nodeId.text))
      || (field == "capability_id" && Blank(n.capabilityId))
      || (field == "capability_version" && Blank(n.capabilityVersion))
      || (field == "artifact_digest" && Blank(n.artifactDigest))
    case DuplicateNodeId => field == "node_id" && exists j :: 0 <= j < i && p.nodes[j].nodeId == n.nodeId
    case _ => false
  }

  /** A loop; else an end that is no node, the first end first; else an edge listed before. */
  ghost predicate EdgeDue(p: WorkflowProposal, i: nat, code: Code, field: string)
    requires i < |p.edges|
  {
    var e := p.edges[i];
    match code
    case SelfLoopEdge => field == "" && e.from == e.to
    case UnknownEdgeEndpoint =>
      && e.from != e.to
      && if !IsNode(p, e.from) then field == "from_node_id" else field == "to_node_id" && !IsNode(p, e.to)
    case DuplicateEdge =>
      && field == "" && e.from != e.to && IsNode(p, e.from) && IsNode(p, e.to)
      && exists j :: 0 <= j < i && p.edges[j] == e
    case _ => false
  }

  /** A blank path; a target, or else a source, that is no node; else no edge to go along. */
  ghost predicate MappingDue(p: WorkflowProposal, i: nat, code: Code, field: string)
    requires i < |p.mappings|
  {
    var m := p.mappings[i];
    match code
    case MissingRequiredField =>
      (field == "source_path" && Blank(m.sourcePath)) || (field == "target_path" && Blank(m.targetPath))
    case UnknownMappingEndpoint =>
      if !IsNode(p, m.target) then field == "target_node_id"
      else field == "source" && m.source.NodeOutput? && !IsNode(p, m.source.nodeId)
    case MissingDependencyEdgeForMapping =>
      && field == "" && m.source.NodeOutput? && IsNode(p, m.target) && IsNode(p, m.source.nodeId)
      && !IsEdge(p, m.source.nodeId, m.target)
    case _ => false
  }

  /** Two mappings write the path. */
  ghost predicate WrittenTwice(p: WorkflowProposal, target: Id, path: string) {
    exists i, j ::
      && 0 <= i < j < |p.mappings| && GoesAlong(p, p.mappings[i]) && GoesAlong(p, p.mappings[j])
      && p.mappings[i].target == p.mappings[j].target == target
      && p.mappings[i].targetPath == p.mappings[j].targetPath == path
  }

  ghost predicate Due(p: WorkflowProposal, limits: Limits, e: Error) {
    match e.path
    case Top(field) => HeaderDue(p, limits, e.code, field)
    case NodeAt(i, field) => i < |p.nodes| && NodeDue(p, i, e.code, field)
    case EdgeAt(i, field) => i < |p.edges| && EdgeDue(p, i, e.code, field)
    case MappingAt(i, field) => i < |p.mappings| && MappingDue(p, i, e.code, field)
    case Target(target, path) => e.code == AmbiguousMultiWriterTarget && WrittenTwice(p, target, path)
  }

  // ---- the order of errors

  function Phase(e: Error): (n: nat) {
    match e.path case Top(_) => 0 case NodeAt(_, _) => 1 case EdgeAt(_, _) => 2 case MappingAt(_, _) => 3
    case Target(_, _) => 4
  }

  function Item(e: Error): (n: nat) {
    match e.path case NodeAt(i, _) => i case EdgeAt(i, _) => i case MappingAt(i, _) => i case _ => 0
  }

  const HEADER_ORDER := ["kind", "schema_version", "proposal_id", "workspace_id", "nodes", "edges", "mappings",
    "initial_input"]
  const NODE_ORDER := ["node_id", "capability_id", "capability_version", "artifact_digest"]

  /** The place of an error among those of one item: fields in order, then what needs other items. */
  ghost predicate InSlot(e: Error, k: nat) {
    match e.path
    case Top(field) => k < |HEADER_ORDER| && HEADER_ORDER[k] == field
    case NodeAt(_, field) =>
      if e.code == DuplicateNodeId then k == |NODE_ORDER| else k < |NODE_ORDER| && NODE_ORDER[k] == field
    case EdgeAt(_, _) => k == 0
    case MappingAt(_, field) => k == if field == "source_path" then 0 else if field == "target_path" then 1 else 2
    case Target(_, _) => false
  }

  /** Header, nodes, edges, mappings, contested targets; within these item by item, within an item slot by slot. */
  ghost predicate Before(a: Error, b: Error) {
    if Phase(a) != Phase(b) then Phase(a) < Phase(b)
    else if Phase(a) == 4 then KeyLess((a.path.target, a.path.path), (b.path.target, b.path.path))
    else if Item(a) != Item(b) then Item(a) < Item(b)
    else exists j, k :: j < k && InSlot(a, j) && InSlot(b, k)
  }

  ghost predicate InOrder(errors: seq<Error>) {
    forall i, j :: 0 <= i < j < |errors| ==> Before(errors[i], errors[j])
  }

  lemma SlotUnique(e: Error, j: nat, k: nat)
    requires InSlot(e, j) && InSlot(e, k)
    ensures j == k
  {
  }

  lemma NotBoth(a: Error, b: Error)
    ensures !(Before(a, b) && Before(b, a))
  {
    if Phase(a) == Phase(b) == 4 {
      var k, l := (a.path.target, a.path.path), (b.path.target, b.path.path);
      if KeyLess(k, l) && KeyLess(l, k) {
        KeyTransitive(k, l, k);
        KeyIrreflexive(k);
      }
    } else if Phase(a) == Phase(b) && Item(a) == Item(b) {
      forall i: nat, j: nat, k: nat, l: nat | InSlot(a, i) && InSlot(b, j) && InSlot(b, k) && InSlot(a, l)
        ensures i == l && j == k
      {
        SlotUnique(a, i, l);
        SlotUnique(b, j, k);
      }
    }
  }

  lemma FirstBefore(errors: seq<Error>, e: Error)
    requires InOrder(errors) && e in errors
    ensures e == errors[0] || Before(errors[0], e)
  {
  }

  /** Errors in order are determined by which they are. */
  lemma {:induction false} OrderDetermines(a: seq<Error>, b: seq<Error>)
    requires InOrder(a) && InOrder(b) && forall e :: e in a <==> e in b
    ensures a == b
  {
    assert a != [] ==> a[0] in a;
    assert b != [] ==> b[0] in b;
    if a != [] && b != [] {
      FirstBefore(a, b[0]);
      FirstBefore(b, a[0]);
      NotBoth(a[0], b[0]);
      Rest(a);
      Rest(b);
      OrderDetermines(a[1..], b[1..]);
      assert a == [a[0]] + a[1..] && b == [b[0]] + b[1..];
    }
  }

  lemma Rest(errors: seq<Error>)
    requires errors != [] && InOrder(errors)
    ensures InOrder(errors[1..]) && forall e :: e in errors[1..] <==> e in errors && e != errors[0]
  {
    NotBoth(errors[0], errors[0]);
    forall i | 1 <= i < |errors| ensures errors[i] != errors[0] {
      assert Before(errors[0], errors[i]);
    }
    assert errors == [errors[0]] + errors[1..];
  }

  // ---- lists in order

  ghost predicate AllBefore(a: seq<Error>, b: seq<Error>) {
    forall x, y :: x in a && y in b ==> Before(x, y)
  }

  lemma Joined(a: seq<Error>, b: seq<Error>)
    requires InOrder(a) && InOrder(b) && AllBefore(a, b)
    ensures InOrder(a + b) && forall e :: e in a + b <==> e in a || e in b
  {
    var all := a + b;
    forall i, j | 0 <= i < j < |all| ensures Before(all[i], all[j]) {
      if i < |a| <= j {
        assert all[i] in a && all[j] in b;
      }
    }
  }

  /** Errors of one item, in the slots from `lo` up to `hi`. */
  ghost predicate Slots(errors: seq<Error>, phase: nat, item: nat, lo: nat, hi: nat) {
    && InOrder(errors) && phase < 4
    && forall e :: e in errors ==>
         Phase(e) == phase && Item(e) == item && exists k: nat :: lo <= k < hi && InSlot(e, k)
  }

  lemma SlotsJoined(a: seq<Error>, b: seq<Error>, phase: nat, item: nat, lo: nat, mid: nat, hi: nat)
    requires Slots(a, phase, item, lo, mid) && Slots(b, phase, item, mid, hi) && lo <= mid <= hi
    ensures Slots(a + b, phase, item, lo, hi)
  {
    forall x, y | x in a && y in b ensures Before(x, y) {
      var j: nat :| lo <= j < mid && InSlot(x, j);
      var k: nat :| mid <= k < hi && InSlot(y, k);
    }
    Joined(a, b);
  }

  lemma OneSlot(errors: seq<Error>, phase: nat, item: nat, k: nat)
    requires |errors| <= 1 && phase < 4
    requires forall e :: e in errors ==> Phase(e) == phase && Item(e) == item && InSlot(e, k)
    ensures Slots(errors, phase, item, k, k + 1)
  {
  }

  // ---- item by item

  ghost predicate ItemsBefore(errors: seq<Error>, phase: nat, k: nat) {
    InOrder(errors) && phase < 4 && forall e :: e in errors ==> Phase(e) == phase && Item(e) < k
  }

  lemma ItemJoined(a: seq<Error>, b: seq<Error>, phase: nat, k: nat, hi: nat)
    requires ItemsBefore(a, phase, k) && Slots(b, phase, k, 0, hi)
    ensures ItemsBefore(a + b, phase, k + 1)
  {
    assert AllBefore(a, b);
    Joined(a, b);
  }

  /** Each of the sums is the one before it and the list that comes next. */
  ghost predicate Accumulates(sums: seq<seq<Error>>, lists: seq<seq<Error>>) {
    |sums| == |lists| + 1 && sums[0] == [] && forall k :: 0 <= k < |lists| ==> sums[k + 1] == sums[k] + lists[k]
  }

  lemma {:induction false} SumsInOrder(sums: seq<seq<Error>>, lists: seq<seq<Error>>, k: nat, phase: nat, hi: nat)
    requires Accumulates(sums, lists) && k <= |lists| && phase < 4
    requires forall i :: 0 <= i < |lists| ==> Slots(lists[i], phase, i, 0, hi)
    ensures ItemsBefore(sums[k], phase, k)
  {
    if k > 0 {
      SumsInOrder(sums, lists, k - 1, phase, hi);
      ItemJoined(sums[k - 1], lists[k - 1], phase, k - 1, hi);
      assert sums[k] == sums[k - 1] + lists[k - 1];
    }
  }

  lemma {:induction false} SumMembers(sums: seq<seq<Error>>, lists: seq<seq<Error>>, k: nat, e: Error)
    requires Accumulates(sums, lists) && k <= |lists|
    ensures e in sums[k] <==> exists i :: 0 <= i < k && e in lists[i]
  {
    if k > 0 {
      SumMembers(sums, lists, k - 1, e);
      assert sums[k] == sums[k - 1] + lists[k - 1];
    }
  }

  // ---- the header

  function TextErrors(p: WorkflowProposal): (r: seq<Error>) {
    Fail(p.kind != "workflow_proposal", InvalidLiteral, Top("kind"))
    + Fail(p.schemaVersion != "1.0.0", InvalidLiteral, Top("schema_version"))
    + RequireText(p.proposalId, Top("proposal_id")) + RequireText(p.workspaceId, Top("workspace_id"))
  }

  lemma TextOrder(p: WorkflowProposal)
    ensures Slots(TextErrors(p), 0, 0, 0, 4)
  {
    var kind := Fail(p.kind != "workflow_proposal", InvalidLiteral, Top("kind"));
    var version := Fail(p.schemaVersion != "1.0.0", InvalidLiteral, Top("schema_version"));
    var proposal, workspace := RequireText(p.proposalId, Top("proposal_id")),
      RequireText(p.workspaceId, Top("workspace_id"));
    OneSlot(kind, 0, 0, 0);
    OneSlot(version, 0, 0, 1);
    OneSlot(proposal, 0, 0, 2);
    OneSlot(workspace, 0, 0, 3);
    SlotsJoined(kind, version, 0, 0, 0, 1, 2);
    SlotsJoined(kind + version, proposal, 0, 0, 0, 2, 3);
    SlotsJoined(kind + version + proposal, workspace, 0, 0, 0, 3, 4);
  }

  lemma HeaderOrder(p: WorkflowProposal, limits: Limits)
    ensures Slots(HeaderErrors(p, limits), 0, 0, 0, 8)
  {
    var texts := TextErrors(p);
    var nodes := Fail(|p.nodes| > limits.maxNodes, NodeLimitExceeded, Top("nodes"));
    var edges := Fail(|p.edges| > limits.maxEdges, EdgeLimitExceeded, Top("edges"));
    var mappings := Fail(|p.mappings| > limits.maxMappings, MappingLimitExceeded, Top("mappings"));
    var input := Fail(p.initialInputBytes > limits.maxInitialInputBytes, PayloadLimitExceeded, Top("initial_input"));
    TextOrder(p);
    OneSlot(nodes, 0, 0, 4);
    OneSlot(edges, 0, 0, 5);
    OneSlot(mappings, 0, 0, 6);
    OneSlot(input, 0, 0, 7);
    SlotsJoined(texts, nodes, 0, 0, 0, 4, 5);
    SlotsJoined(texts + nodes, edges, 0, 0, 0, 5, 6);
    SlotsJoined(texts + nodes + edges, mappings, 0, 0, 0, 6, 7);
    SlotsJoined(texts + nodes + edges + mappings, input, 0, 0, 0, 7, 8);
  }

  lemma HeaderMembers(p: WorkflowProposal, limits: Limits, e: Error)
    ensures e in HeaderErrors(p, limits) <==> e.path.Top? && HeaderDue(p, limits, e.code, e.path.field)
  {
    TextMembers(p, limits, e);
    var nodes := Fail(|p.nodes| > limits.maxNodes, NodeLimitExceeded, Top("nodes"));
    var edges := Fail(|p.edges| > limits.maxEdges, EdgeLimitExceeded, Top("edges"));
    var mappings := Fail(|p.mappings| > limits.maxMappings, MappingLimitExceeded, Top("mappings"));
    var input := Fail(p.initialInputBytes > limits.maxInitialInputBytes, PayloadLimitExceeded, Top("initial_input"));
    assert HeaderErrors(p, limits) == TextErrors(p) + nodes + edges + mappings + input;
    InFive(TextErrors(p), nodes, edges, mappings, input, e);
  }

  lemma TextMembers(p: WorkflowProposal, limits: Limits, e: Error)
    ensures e in TextErrors(p) <==>
            && e.path.Top? && (e.code == InvalidLiteral || e.code == MissingRequiredField)
            && HeaderDue(p, limits, e.code, e.path.field)
  {
  }

  lemma InFive(a: seq<Error>, b: seq<Error>, c: seq<Error>, d: seq<Error>, f: seq<Error>, e: Error)
    ensures e in a + b + c + d + f <==> e in a || e in b || e in c || e in d || e in f
  {
  }

  // ---- nodes

  lemma NodeOrder(nodes: seq<Node>, i: nat)
    requires i < |nodes|
    ensures Slots(NodeErrorsAt(nodes, i), 1, i, 0, 5)
  {
    var n := nodes[i];
    var id, capability := RequireText(n.nodeId.text, NodeAt(i, "node_id")),
      RequireText(n.capabilityId, NodeAt(i, "capability_id"));
    var version, digest := RequireText(n.capabilityVersion, NodeAt(i, "capability_version")),
      RequireText(n.artifactDigest, NodeAt(i, "artifact_digest"));
    var repeated := Fail(n.nodeId in NodeIds(nodes[..i]), DuplicateNodeId, NodeAt(i, "node_id"));
    OneSlot(id, 1, i, 0);
    OneSlot(capability, 1, i, 1);
    OneSlot(version, 1, i, 2);
    OneSlot(digest, 1, i, 3);
    OneSlot(repeated, 1, i, 4);
    SlotsJoined(id, capability, 1, i, 0, 1, 2);
    SlotsJoined(id + capability, version, 1, i, 0, 2, 3);
    SlotsJoined(id + capability + version, digest, 1, i, 0, 3, 4);
    SlotsJoined(id + capability + version + digest, repeated, 1, i, 0, 4, 5);
  }

  lemma NodeMembersAt(p: WorkflowProposal, i: nat, e: Error)
    requires i < |p.nodes|
    ensures e in NodeErrorsAt(p.nodes, i) <==>
            e.path.NodeAt? && e.path.node == i && NodeDue(p, i, e.code, e.path.field)
  {
    var id := p.nodes[i].nodeId;
    assert id in NodeIds(p.nodes[..i]) <==> exists j :: 0 <= j < i && p.nodes[j].nodeId == id by {
      if j :| 0 <= j < i && p.nodes[j].nodeId == id {
        assert p.nodes[..i][j].nodeId == id;
      }
    }
  }

  lemma NodeStep(nodes: seq<Node>, k: nat)
    requires k < |nodes|
    ensures NodeErrors(nodes, k + 1) == NodeErrors(nodes, k) + NodeErrorsAt(nodes, k)
  {
  }

  lemma NodesAccumulate(nodes: seq<Node>) returns (sums: seq<seq<Error>>, lists: seq<seq<Error>>)
    ensures Accumulates(sums, lists) && |lists| == |nodes| && sums[|lists|] == NodeErrors(nodes, |nodes|)
    ensures forall i :: 0 <= i < |lists| ==> lists[i] == NodeErrorsAt(nodes, i)
  {
    sums := seq(|nodes| + 1, k requires 0 <= k <= |nodes| => NodeErrors(nodes, k));
    lists := seq(|nodes|, i requires 0 <= i < |nodes| => NodeErrorsAt(nodes, i));
    forall k | 0 <= k < |lists| ensures sums[k + 1] == sums[k] + lists[k] {
      NodeStep(nodes, k);
    }
  }

  lemma NodesListed(p: WorkflowProposal)
    ensures ItemsBefore(NodeErrors(p.nodes, |p.nodes|), 1, |p.nodes|)
  {
    var sums, lists := NodesAccumulate(p.nodes);
    forall i | 0 <= i < |lists| ensures Slots(lists[i], 1, i, 0, 5) {
      NodeOrder(p.nodes, i);
    }
    SumsInOrder(sums, lists, |lists|, 1, 5);
  }

  lemma NodesMembers(p: WorkflowProposal, e: Error)
    ensures e in NodeErrors(p.nodes, |p.nodes|) <==>
            && e.path.NodeAt? && e.path.node < |p.nodes|
            && NodeDue(p, e.path.node, e.code, e.path.field)
  {
    var sums, lists := NodesAccumulate(p.nodes);
    SumMembers(sums, lists, |lists|, e);
    forall i | 0 <= i < |lists|
      ensures e in lists[i] <==> e.path.NodeAt? && e.path.node == i && NodeDue(p, i, e.code, e.path.field)
    {
      NodeMembersAt(p, i, e);
    }
  }

  // ---- edges

  lemma EdgeMembersAt(p: WorkflowProposal, i: nat, e: Error)
    requires i < |p.edges|
    ensures e in EdgeErrorsAt(NodeIds(p.nodes), p.edges, i) <==>
            e.path.EdgeAt? && e.path.edge == i && EdgeDue(p, i, e.code, e.path.field)
  {
    var here, ids := p.edges[i], NodeIds(p.nodes);
    assert IsNode(p, here.from) <==> here.from in ids;
    assert IsNode(p, here.to) <==> here.to in ids;
    if here.from != here.to && here.from in ids && here.to in ids {
      assert (here.from, here.to) in Declared(ids, p.edges[..i]) <==> exists j :: 0 <= j < i && p.edges[j] == here by {
        if j :| 0 <= j < i && p.edges[j] == here {
          assert p.edges[..i][j] == here;
        }
      }
    }
  }

  lemma EdgeStep(ids: set<Id>, edges: seq<Edge>, k: nat)
    requires k < |edges|
    ensures EdgeErrors(ids, edges, k + 1) == EdgeErrors(ids, edges, k) + EdgeErrorsAt(ids, edges, k)
  {
  }

  lemma EdgesAccumulate(ids: set<Id>, edges: seq<Edge>) returns (sums: seq<seq<Error>>, lists: seq<seq<Error>>)
    ensures Accumulates(sums, lists) && |lists| == |edges| && sums[|lists|] == EdgeErrors(ids, edges, |edges|)
    ensures forall i :: 0 <= i < |lists| ==> lists[i] == EdgeErrorsAt(ids, edges, i)
  {
    sums := seq(|edges| + 1, k requires 0 <= k <= |edges| => EdgeErrors(ids, edges, k));
    lists := seq(|edges|, i requires 0 <= i < |edges| => EdgeErrorsAt(ids, edges, i));
    forall k | 0 <= k < |lists| ensures sums[k + 1] == sums[k] + lists[k] {
      EdgeStep(ids, edges, k);
    }
  }

  lemma EdgesListed(p: WorkflowProposal)
    ensures ItemsBefore(EdgeErrors(NodeIds(p.nodes), p.edges, |p.edges|), 2, |p.edges|)
  {
    var sums, lists := EdgesAccumulate(NodeIds(p.nodes), p.edges);
    forall i | 0 <= i < |lists| ensures Slots(lists[i], 2, i, 0, 1) {
      OneSlot(lists[i], 2, i, 0);
    }
    SumsInOrder(sums, lists, |lists|, 2, 1);
  }

  lemma EdgesMembers(p: WorkflowProposal, e: Error)
    ensures e in EdgeErrors(NodeIds(p.nodes), p.edges, |p.edges|) <==>
            && e.path.EdgeAt? && e.path.edge < |p.edges|
            && EdgeDue(p, e.path.edge, e.code, e.path.field)
  {
    var sums, lists := EdgesAccumulate(NodeIds(p.nodes), p.edges);
    SumMembers(sums, lists, |lists|, e);
    forall i | 0 <= i < |lists|
      ensures e in lists[i] <==> e.path.EdgeAt? && e.path.edge == i && EdgeDue(p, i, e.code, e.path.field)
    {
      EdgeMembersAt(p, i, e);
    }
  }

  // ---- mappings

  lemma DeclaredExactly(p: WorkflowProposal, a: Id, b: Id)
    ensures a in GraphOf(p).nodes <==> IsNode(p, a)
    ensures (a, b) in GraphOf(p).edges <==> IsEdge(p, a, b)
  {
    assert IsNode(p, a) <==> a in NodeIds(p.nodes);
    assert IsNode(p, b) <==> b in NodeIds(p.nodes);
    if IsEdge(p, a, b) {
      var k :| 0 <= k < |p.edges| && p.edges[k] == Edge(a, b);
      assert (p.edges[k].from, p.edges[k].to) in Declared(NodeIds(p.nodes), p.edges);
    }
  }

  lemma MappingOrder(p: WorkflowProposal, i: nat)
    requires i < |p.mappings|
    ensures Slots(MappingErrorsAt(GraphOf(p), p.mappings, i), 3, i, 0, 3)
  {
    var m, g := p.mappings[i], GraphOf(p);
    var source, target := RequireText(m.sourcePath, MappingAt(i, "source_path")),
      RequireText(m.targetPath, MappingAt(i, "target_path"));
    var all := MappingErrorsAt(g, p.mappings, i);
    var wiring := all[|source + target|..];
    assert all == source + target + wiring;
    assert |wiring| <= 1 && forall e :: e in wiring ==> Phase(e) == 3 && Item(e) == i && InSlot(e, 2);
    OneSlot(source, 3, i, 0);
    OneSlot(target, 3, i, 1);
    OneSlot(wiring, 3, i, 2);
    SlotsJoined(source, target, 3, i, 0, 1, 2);
    SlotsJoined(source + target, wiring, 3, i, 0, 2, 3);
  }

  lemma MappingMembersAt(p: WorkflowProposal, i: nat, e: Error)
    requires i < |p.mappings|
    ensures e in MappingErrorsAt(GraphOf(p), p.mappings, i) <==>
            e.path.MappingAt? && e.path.mapping == i && MappingDue(p, i, e.code, e.path.field)
  {
    var m := p.mappings[i];
    DeclaredExactly(p, m.target, m.target);
    if m.source.NodeOutput? {
      DeclaredExactly(p, m.source.nodeId, m.target);
    }
  }

  lemma MappingStep(g: Graph, mappings: seq<Mapping>, k: nat)
    requires k < |mappings|
    ensures MappingErrors(g, mappings, k + 1) == MappingErrors(g, mappings, k) + MappingErrorsAt(g, mappings, k)
  {
  }

  lemma MappingsAccumulate(g: Graph, mappings: seq<Mapping>) returns (sums: seq<seq<Error>>, lists: seq<seq<Error>>)
    ensures Accumulates(sums, lists) && |lists| == |mappings| && sums[|lists|] == MappingErrors(g, mappings, |mappings|)
    ensures forall i :: 0 <= i < |lists| ==> lists[i] == MappingErrorsAt(g, mappings, i)
  {
    sums := seq(|mappings| + 1, k requires 0 <= k <= |mappings| => MappingErrors(g, mappings, k));
    lists := seq(|mappings|, i requires 0 <= i < |mappings| => MappingErrorsAt(g, mappings, i));
    forall k | 0 <= k < |lists| ensures sums[k + 1] == sums[k] + lists[k] {
      MappingStep(g, mappings, k);
    }
  }

  lemma MappingsListed(p: WorkflowProposal)
    ensures ItemsBefore(MappingErrors(GraphOf(p), p.mappings, |p.mappings|), 3, |p.mappings|)
  {
    var sums, lists := MappingsAccumulate(GraphOf(p), p.mappings);
    forall i | 0 <= i < |lists| ensures Slots(lists[i], 3, i, 0, 3) {
      MappingOrder(p, i);
    }
    SumsInOrder(sums, lists, |lists|, 3, 3);
  }

  lemma MappingsMembers(p: WorkflowProposal, e: Error)
    ensures e in MappingErrors(GraphOf(p), p.mappings, |p.mappings|) <==>
            && e.path.MappingAt? && e.path.mapping < |p.mappings|
            && MappingDue(p, e.path.mapping, e.code, e.path.field)
  {
    var sums, lists := MappingsAccumulate(GraphOf(p), p.mappings);
    SumMembers(sums, lists, |lists|, e);
    forall i | 0 <= i < |lists|
      ensures e in lists[i] <==> e.path.MappingAt? && e.path.mapping == i && MappingDue(p, i, e.code, e.path.field)
    {
      MappingMembersAt(p, i, e);
    }
  }

  // ---- contested targets

  lemma WiredExactly(p: WorkflowProposal, m: Mapping)
    ensures Wired(GraphOf(p), m) <==> GoesAlong(p, m)
  {
    DeclaredExactly(p, m.target, m.target);
    if m.source.NodeOutput? {
      DeclaredExactly(p, m.source.nodeId, m.target);
    }
  }

  lemma ContestedExactly(p: WorkflowProposal, target: Id, path: string)
    ensures Contested(GraphOf(p), p.mappings, (target, path)) <==> WrittenTwice(p, target, path)
  {
    forall m ensures Wired(GraphOf(p), m) <==> GoesAlong(p, m) {
      WiredExactly(p, m);
    }
  }

  lemma WritersListed(p: WorkflowProposal, writers: seq<Error>)
    requires WriterErrors(GraphOf(p), p.mappings, writers)
    ensures InOrder(writers) && forall e :: e in writers ==> Phase(e) == 4
  {
    forall i, j | 0 <= i < j < |writers| ensures Before(writers[i], writers[j]) {
      assert writers[i] in writers && writers[j] in writers;
    }
  }

  lemma WritersMembers(p: WorkflowProposal, writers: seq<Error>, e: Error)
    requires WriterErrors(GraphOf(p), p.mappings, writers)
    ensures e in writers <==>
            e.path.Target? && e.code == AmbiguousMultiWriterTarget && WrittenTwice(p, e.path.target, e.path.path)
  {
    if e.path.Target? {
      ContestedExactly(p, e.path.target, e.path.path);
    }
  }

  // ---- all of them

  lemma PhasesApart(a: seq<Error>, b: seq<Error>, phase: nat)
    requires InOrder(a) && InOrder(b)
    requires (forall e :: e in a ==> Phase(e) < phase) && forall e :: e in b ==> Phase(e) == phase
    ensures InOrder(a + b)
    ensures forall e :: e in a + b ==> Phase(e) < phase + 1
  {
    assert AllBefore(a, b);
    Joined(a, b);
  }

  function Items(p: WorkflowProposal, limits: Limits): (r: seq<Error>) {
    HeaderErrors(p, limits) + NodeErrors(p.nodes, |p.nodes|) + EdgeErrors(NodeIds(p.nodes), p.edges, |p.edges|)
    + MappingErrors(GraphOf(p), p.mappings, |p.mappings|)
  }

  lemma AllInOrder(p: WorkflowProposal, limits: Limits, writers: seq<Error>)
    requires WriterErrors(GraphOf(p), p.mappings, writers)
    ensures InOrder(Items(p, limits) + writers)
  {
    var header, nodes := HeaderErrors(p, limits), NodeErrors(p.nodes, |p.nodes|);
    var edges, mappings := EdgeErrors(NodeIds(p.nodes), p.edges, |p.edges|),
      MappingErrors(GraphOf(p), p.mappings, |p.mappings|);
    HeaderOrder(p, limits);
    NodesListed(p);
    EdgesListed(p);
    MappingsListed(p);
    WritersListed(p, writers);
    PhasesApart(header, nodes, 1);
    PhasesApart(header + nodes, edges, 2);
    PhasesApart(header + nodes + edges, mappings, 3);
    PhasesApart(header + nodes + edges + mappings, writers, 4);
  }

  lemma AllMembers(p: WorkflowProposal, limits: Limits, writers: seq<Error>, e: Error)
    requires WriterErrors(GraphOf(p), p.mappings, writers)
    ensures e in Items(p, limits) + writers <==> Due(p, limits, e)
  {
    HeaderMembers(p, limits, e);
    NodesMembers(p, e);
    EdgesMembers(p, e);
    MappingsMembers(p, e);
    WritersMembers(p, writers, e);
  }

  /** A malformed proposal gets exactly the errors that are due, each once and in order: one list and no other. */
  lemma ErrorsExactly(p: WorkflowProposal, limits: Limits, errors: seq<Error>, other: seq<Error>)
    requires StructuralErrors(p, limits, errors)
    ensures other == errors <==> InOrder(other) && forall e :: e in other <==> Due(p, limits, e)
  {
    var writers :| WriterErrors(GraphOf(p), p.mappings, writers)
                   && errors == HeaderErrors(p, limits) + NodeErrors(p.nodes, |p.nodes|)
                                + EdgeErrors(NodeIds(p.nodes), p.edges, |p.edges|)
                                + MappingErrors(GraphOf(p), p.mappings, |p.mappings|) + writers;
    assert errors == Items(p, limits) + writers;
    AllInOrder(p, limits, writers);
    forall e ensures e in errors <==> Due(p, limits, e) {
      AllMembers(p, limits, writers, e);
    }
    if InOrder(other) && forall e :: e in other <==> Due(p, limits, e) {
      OrderDetermines(errors, other);
    }
  }

  /** And none is due exactly for the well-formed ones. */
  lemma WellFormedExactly(p: WorkflowProposal, limits: Limits, errors: seq<Error>)
    requires StructuralErrors(p, limits, errors)
    ensures WellFormed(p, limits) <==> forall e :: !Due(p, limits, e)
  {
    var writers :| WriterErrors(GraphOf(p), p.mappings, writers)
                   && errors == HeaderErrors(p, limits) + NodeErrors(p.nodes, |p.nodes|)
                                + EdgeErrors(NodeIds(p.nodes), p.edges, |p.edges|)
                                + MappingErrors(GraphOf(p), p.mappings, |p.mappings|) + writers;
    NoErrorsMeansWellFormed(p, limits, writers);
    ErrorsExactly(p, limits, errors, errors);
    if errors != [] {
      assert errors[0] in errors;
    }
  }
}
