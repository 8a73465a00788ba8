/**
  The bounded parallel schedule of a canonical proposal, and what sequential and wave
  execution may rely on.
 */
module ProposalRuns {
  import opened Ids
  import opened Dag
  import opened Scheduling
  import opened Waves
  import opened Proposal

  datatype ScheduleLimits = ScheduleLimits(
    maxFanOut: nat, maxJoinWidth: nat, maxQueueDepth: nat, maxConcurrentNodes: nat)

  datatype ScheduleOutcome = Scheduled(waves: seq<seq<Id>>) | OverLimit(errors: seq<ScheduleError>)

  /** What `canonicalize_proposal` establishes about the proposal it hands on. */
  ghost predicate Canonical(p: WorkflowProposal) {
    (exists limits :: WellFormed(p, limits)) && Acyclic(GraphOf(p))
  }

  method IndexEdges(ids: set<Id>, edges: seq<Edge>) returns (adjacency: map<Id, set<Id>>, inDegree: map<Id, nat>)
    requires EdgesWellFormed(ids, edges)
    ensures Indexed(Graph(ids, Declared(ids, edges)), adjacency, inDegree)
  {
    adjacency, inDegree := map[], map n | n in ids :: 0;
    EmptyIndexed(ids);
    assert Declared(ids, edges[..0]) == {};
    for i := 0 to |edges|
      invariant Indexed(Graph(ids, Declared(ids, edges[..i])), adjacency, inDegree)
    {
      DeclaredStep(ids, edges, i);
      NotYetDeclared(ids, edges, i);
      adjacency, inDegree := RecordEdge(Graph(ids, Declared(ids, edges[..i])), adjacency, inDegree, edges[i].from,
                                        edges[i].to);
    }
    assert edges[..|edges|] == edges;
  }

  lemma NotYetDeclared(ids: set<Id>, edges: seq<Edge>, i: nat)
    requires EdgesWellFormed(ids, edges) && i < |edges|
    ensures (edges[i].from, edges[i].to) !in Declared(ids, edges[..i])
  {
    forall j | 0 <= j < i ensures (edges[j].from, edges[j].to) != (edges[i].from, edges[i].to) {
      assert edges[j] != edges[i];
    }
  }

  /** One error, in id order, for every node with too many direct predecessors. */
  ghost predicate JoinErrors(g: Graph, maxJoinWidth: nat, errors: seq<ScheduleError>) {
    exists nodes :: Sorted(nodes)
      && (forall n :: n in nodes <==> n in g.nodes && |g.Preds(n)| > maxJoinWidth)
      && |errors| == |nodes|
      && forall i :: 0 <= i < |nodes| ==> errors[i] == JoinWidthExceeded(nodes[i], |g.Preds(nodes[i])|)
  }

  method CheckJoins(ghost g: Graph, inDegree: map<Id, nat>, maxJoinWidth: nat) returns (errors: seq<ScheduleError>)
    requires Counts(g, {}, inDegree)
    ensures JoinErrors(g, maxJoinWidth, errors)
  {
    errors := [];
    ghost var wide: seq<Id> := [];
    var ids := InOrder(inDegree.Keys);
    for i := 0 to |ids|
      invariant Sorted(wide) && |errors| == |wide|
      invariant forall n :: n in wide <==> n in ids[..i] && n in inDegree && inDegree[n] > maxJoinWidth
      invariant forall j :: 0 <= j < |wide| ==> errors[j] == JoinWidthExceeded(wide[j], inDegree[wide[j]])
    {
      assert ids[i] in Elements(ids);
      if inDegree[ids[i]] > maxJoinWidth {
        errors := errors + [JoinWidthExceeded(ids[i], inDegree[ids[i]])];
        wide := wide + [ids[i]];
      }
    }
    assert ids[..|ids|] == ids;
    forall n | n in g.nodes ensures n in ids && inDegree[n] == |g.Preds(n)| {
      assert n in Elements(ids);
      assert CountOf(g, {}, inDegree, n);
      assert g.Preds(n) - {} == g.Preds(n);
    }
    forall n | n in ids ensures n in g.nodes { assert n in Elements(ids); }
  }

  /** All three configured bounds hold. */
  ghost predicate WithinLimits(g: Graph, limits: ScheduleLimits) {
    && |g.nodes| <= limits.maxQueueDepth
    && (forall n {:trigger g.Preds(n)} :: n in g.nodes ==> |g.Preds(n)| <= limits.maxJoinWidth)
    && (forall k: nat :: |LevelSet(g, k)| <= limits.maxFanOut)
  }

  /** The error list of an over-limit graph: queue depth, then joins, then waves. */
  ghost predicate ScheduleErrors(g: Graph, limits: ScheduleLimits, errors: seq<ScheduleError>) {
    exists joins, waves :: JoinErrors(g, limits.maxJoinWidth, joins) && IsWaveSchedule(g, waves)
      && errors == QueueDepthErrors(g.nodes, limits.maxQueueDepth) + joins + FanOutErrors(waves, limits.maxFanOut)
  }

  function QueueDepthErrors(ids: set<Id>, maxQueueDepth: nat): (r: seq<ScheduleError>) {
    if |ids| > maxQueueDepth then [QueueDepthExceeded(|ids|)] else []
  }

  /**
    A canonical proposal is scheduled exactly when it is within the limits, into the
    waves given by longest dependency walks; otherwise every exceeded bound is reported.
   */
  method ComputeParallelSchedule(p: WorkflowProposal, limits: ScheduleLimits) returns (r: ScheduleOutcome)
    requires Canonical(p)
    ensures r.Scheduled? <==> WithinLimits(GraphOf(p), limits)
    ensures r.Scheduled? ==> IsWaveSchedule(GraphOf(p), r.waves)
    ensures r.OverLimit? ==> ScheduleErrors(GraphOf(p), limits, r.errors)
  {
    ghost var g := GraphOf(p);
    var nodeIds := NodeIds(p.nodes);
    var errors := QueueDepthErrors(nodeIds, limits.maxQueueDepth);
    var adjacency, inDegree := IndexEdges(nodeIds, p.edges);
    var joinErrors := CheckJoins(g, inDegree, limits.maxJoinWidth);
    var waves, fanOutErrors := Levelize(g, nodeIds, adjacency, inDegree, limits.maxFanOut);
    errors := errors + joinErrors + fanOutErrors;
    LimitsFromErrors(g, limits, joinErrors, waves);
    if errors == [] {
      return Scheduled(waves);
    } else {
      return OverLimit(errors);
    }
  }

  lemma LimitsFromErrors(g: Graph, limits: ScheduleLimits, joins: seq<ScheduleError>, waves: seq<seq<Id>>)
    requires JoinErrors(g, limits.maxJoinWidth, joins) && IsWaveSchedule(g, waves)
    ensures QueueDepthErrors(g.nodes, limits.maxQueueDepth) + joins + FanOutErrors(waves, limits.maxFanOut) == []
            <==> WithinLimits(g, limits)
  {
    var depth, fanOut := QueueDepthErrors(g.nodes, limits.maxQueueDepth), FanOutErrors(waves, limits.maxFanOut);
    assert |depth + joins + fanOut| == |depth| + |joins| + |fanOut|;
    NoFanOutErrors(waves, limits.maxFanOut);
    WaveSizes(g, waves, limits.maxFanOut);
    NoJoinErrors(g, limits.maxJoinWidth, joins);
  }

  lemma NoJoinErrors(g: Graph, maxJoinWidth: nat, joins: seq<ScheduleError>)
    requires JoinErrors(g, maxJoinWidth, joins)
    ensures joins == [] <==> forall n {:trigger g.Preds(n)} :: n in g.nodes ==> |g.Preds(n)| <= maxJoinWidth
  {
    var nodes :| Sorted(nodes)
      && (forall n :: n in nodes <==> n in g.nodes && |g.Preds(n)| > maxJoinWidth)
      && |joins| == |nodes|
      && forall i :: 0 <= i < |nodes| ==> joins[i] == JoinWidthExceeded(nodes[i], |g.Preds(nodes[i])|);
    if nodes != [] { assert nodes[0] in nodes; }
  }

  lemma WaveSizes(g: Graph, waves: seq<seq<Id>>, bound: nat)
    requires IsWaveSchedule(g, waves)
    ensures (forall k :: 0 <= k < |waves| ==> |waves[k]| <= bound) <==> (forall k: nat :: |LevelSet(g, k)| <= bound)
  {
    forall k: nat ensures |LevelSet(g, k)| == if k < |waves| then |waves[k]| else 0 { LevelSize(g, waves, k); }
  }

  lemma LevelSize(g: Graph, waves: seq<seq<Id>>, k: nat)
    requires IsWaveSchedule(g, waves)
    ensures |LevelSet(g, k)| == if k < |waves| then |waves[k]| else 0
  {
    if k < |waves| {
      SortedCardinality(waves[k]);
    } else {
      forall n | n in g.nodes ensures !LongestWalk(g, n, k) {
        var j :| 0 <= j < |waves| && n in waves[j];
        assert n in Elements(waves[j]);
        if LongestWalk(g, n, k) { LongestWalkUnique(g, n, j, k); }
      }
      assert LevelSet(g, k) == {};
    }
  }

  // ---- determinism and data flow

  /** The order depends only on which nodes and edges are declared, not on their listing. */
  lemma OrderDependsOnGraphOnly(p: WorkflowProposal, q: WorkflowProposal, a: seq<Id>, b: seq<Id>)
    requires GraphOf(p) == GraphOf(q)
    requires IsTopologicalOrder(GraphOf(p), a) && forall t :: IsTopologicalOrder(GraphOf(p), t) ==> LexAtMost(a, t)
    requires IsTopologicalOrder(GraphOf(q), b) && forall t :: IsTopologicalOrder(GraphOf(q), t) ==> LexAtMost(b, t)
    ensures a == b
  {
    DistinctCardinality(a);
    DistinctCardinality(b);
    LexAtMostAntisymmetric(a, b);
  }

  /** The waves, too, are determined by the graph. */
  lemma WavesDependOnGraphOnly(g: Graph, a: seq<seq<Id>>, b: seq<seq<Id>>)
    requires IsWaveSchedule(g, a) && IsWaveSchedule(g, b)
    ensures a == b
  {
    WaveCount(g, a, b);
    WaveCount(g, b, a);
    forall k | 0 <= k < |a| ensures a[k] == b[k] { SortedUnique(a[k], b[k]); }
  }

  lemma WaveCount(g: Graph, a: seq<seq<Id>>, b: seq<seq<Id>>)
    requires IsWaveSchedule(g, a) && IsWaveSchedule(g, b)
    ensures |a| <= |b|
  {
    if a != [] {
      var k := |a| - 1;
      var n := a[k][0];
      assert n in Elements(a[k]);
      var j :| 0 <= j < |b| && n in b[j];
      assert n in Elements(b[j]);
      LongestWalkUnique(g, n, j, k);
    }
  }

  /** The node outputs the mappings into `n` read. */
  ghost function Reads(p: WorkflowProposal, n: Id): (r: set<Id>) {
    set i | 0 <= i < |p.mappings| && p.mappings[i].target == n && p.mappings[i].source.NodeOutput?
      :: p.mappings[i].source.nodeId
  }

  lemma ReadIsEdge(p: WorkflowProposal, limits: Limits, m: Id, n: Id)
    requires WellFormed(p, limits) && m in Reads(p, n)
    ensures m in GraphOf(p).nodes && n in GraphOf(p).nodes && (m, n) in GraphOf(p).edges
  {
    var i :| 0 <= i < |p.mappings| && p.mappings[i].target == n && p.mappings[i].source == NodeOutput(m);
    assert Wired(GraphOf(p), p.mappings[i]);
  }

  /** Running the order node by node, every read is of an output already produced. */
  lemma SequentialRunReadsProduced(p: WorkflowProposal, limits: Limits, order: seq<Id>, k: nat)
    requires WellFormed(p, limits) && IsTopologicalOrder(GraphOf(p), order) && k < |order|
    ensures Reads(p, order[k]) <= Elements(order[..k])
  {
    forall m | m in Reads(p, order[k]) ensures m in Elements(order[..k]) {
      ReadIsEdge(p, limits, m, order[k]);
      assert m in Elements(order);
      var j :| 0 <= j < |order| && order[j] == m;
      assert order[j] == order[..k][j];
    }
  }

  /** Running wave by wave, every read is of an output of an earlier wave. */
  lemma WaveRunReadsProduced(p: WorkflowProposal, limits: Limits, waves: seq<seq<Id>>, k: nat, n: Id)
    requires WellFormed(p, limits) && IsWaveSchedule(GraphOf(p), waves) && k < |waves| && n in waves[k]
    ensures Reads(p, n) <= Covered(waves[..k])
  {
    var g := GraphOf(p);
    forall m | m in Reads(p, n) ensures m in Covered(waves[..k]) {
      ReadIsEdge(p, limits, m, n);
      var j :| 0 <= j < |waves| && m in waves[j];
      WalkClimbsWaves(g, waves, [m, n], j, k);
      assert m in waves[..k][j];
      CoveredMember(waves[..k], m);
    }
  }

  /** In a well-formed proposal no target path has two writers, and each mapping is the one writer of its path. */
  lemma SingleWriter(p: WorkflowProposal, limits: Limits, key: (Id, string))
    requires WellFormed(p, limits)
    ensures Writers(GraphOf(p), p.mappings, |p.mappings|, key) <= 1
    ensures Writers(GraphOf(p), p.mappings, |p.mappings|, key) == 1 <==>
            exists i :: 0 <= i < |p.mappings| && WriterKey(p.mappings[i]) == key
  {
    assert p.mappings[..|p.mappings|] == p.mappings;
    WritersCount(GraphOf(p), p.mappings, |p.mappings|, key);
  }
}
