/**
  The two schedulers of a workflow proposal: Kahn's algorithm with the smallest ready id
  first, and its levelled form that yields concurrency waves.
 */
module Scheduling {
  import opened Common
  import opened Ids
  import opened Dag

  /** `adjacency` lists exactly the edges of `g`. */
  ghost predicate Adjacent(g: Graph, adjacency: map<Id, set<Id>>) {
    && g.Closed()
    && (forall a, b :: (a, b) in g.edges ==> a in adjacency && b in adjacency[a])
    && (forall a, b :: a in adjacency && b in adjacency[a] ==> (a, b) in g.edges)
  }

  /** `remaining` counts, for every node, the predecessors that are not done. */
  ghost predicate Counts(g: Graph, done: set<Id>, remaining: map<Id, nat>) {
    remaining.Keys == g.nodes && forall n {:trigger CountOf(g, done, remaining, n)} :: n in g.nodes ==>
      CountOf(g, done, remaining, n)
  }

  ghost predicate CountOf(g: Graph, done: set<Id>, remaining: map<Id, nat>, n: Id) {
    n in remaining && remaining[n] == |g.Preds(n) - done|
  }

  function Successors(adjacency: map<Id, set<Id>>, n: Id): (r: set<Id>) {
    if n in adjacency then adjacency[n] else {}
  }

  lemma SuccessorsAreEdges(g: Graph, adjacency: map<Id, set<Id>>, node: Id)
    requires Adjacent(g, adjacency)
    ensures forall n :: n in Successors(adjacency, node) <==> (node, n) in g.edges
  {
  }

  /** Nodes whose last missing predecessor is `node`. */
  ghost function Freed(g: Graph, done: set<Id>, node: Id): (r: set<Id>) {
    set n | n in g.nodes && (node, n) in g.edges && g.Preds(n) <= done + {node}
  }

  lemma CountDrops(g: Graph, done: set<Id>, node: Id, n: Id)
    requires node in g.nodes && node !in done
    ensures (node, n) in g.edges ==> |g.Preds(n) - done| == |g.Preds(n) - (done + {node})| + 1
    ensures (node, n) !in g.edges ==> g.Preds(n) - done == g.Preds(n) - (done + {node})
  {
    if (node, n) in g.edges {
      assert g.Preds(n) - done == (g.Preds(n) - (done + {node})) + {node};
    }
  }

  /** The effect of finishing `node` on one node's count. */
  lemma CountStep(g: Graph, done: set<Id>, node: Id, remaining: map<Id, nat>, n: Id)
    requires node in g.nodes && node !in done && n in g.nodes && CountOf(g, done, remaining, n)
    ensures (node, n) in g.edges ==> remaining[n] >= 1 && |g.Preds(n) - (done + {node})| == remaining[n] - 1
    ensures (node, n) !in g.edges ==> |g.Preds(n) - (done + {node})| == remaining[n]
    ensures n in Freed(g, done, node) <==> (node, n) in g.edges && remaining[n] == 1
  {
    CountDrops(g, done, node, n);
    assert g.Preds(n) <= done + {node} <==> g.Preds(n) - (done + {node}) == {};
  }

  lemma CountsAfter(g: Graph, done: set<Id>, node: Id, successors: set<Id>, remaining: map<Id, nat>,
                    remaining': map<Id, nat>)
    requires g.Closed() && node in g.nodes && node !in done && Counts(g, done, remaining)
    requires forall n :: n in successors <==> (node, n) in g.edges
    requires remaining'.Keys == g.nodes
    requires forall n :: n in remaining ==> remaining'[n] + (if n in successors then 1 else 0) == remaining[n]
    ensures Counts(g, done + {node}, remaining')
    ensures forall n :: n in Freed(g, done, node) <==> n in successors && remaining[n] == 1
  {
    forall n {:trigger CountOf(g, done + {node}, remaining', n)} | n in g.nodes
      ensures CountOf(g, done + {node}, remaining', n)
    {
      CountStep(g, done, node, remaining, n);
    }
    forall n | n in successors ensures n in Freed(g, done, node) <==> remaining[n] == 1 {
      CountStep(g, done, node, remaining, n);
    }
  }

  /**
    The loop over one finished node's successors.  The subtraction is on `nat`, so a
    degree must be proved positive before it is lowered.
   */
  method LowerDegrees(successors: set<Id>, remaining: map<Id, nat>, ready: set<Id>)
    returns (remaining': map<Id, nat>, ready': set<Id>)
    requires forall n :: n in successors ==> n in remaining && remaining[n] >= 1
    ensures remaining'.Keys == remaining.Keys
    ensures forall n :: n in remaining ==> remaining'[n] + (if n in successors then 1 else 0) == remaining[n]
    ensures forall n :: n in ready' <==> n in ready || (n in successors && remaining[n] == 1)
  {
    remaining', ready' := remaining, ready;
    var left := successors;
    while left != {}
      invariant left <= successors && remaining'.Keys == remaining.Keys
      invariant forall n :: n in remaining ==>
        remaining'[n] + (if n in successors && n !in left then 1 else 0) == remaining[n]
      invariant forall n :: n in ready' <==> n in ready || (n in successors && n !in left && remaining[n] == 1)
      decreases left
    {
      var s :| s in left;
      remaining' := remaining'[s := remaining'[s] - 1];
      if remaining'[s] == 0 {
        ready' := ready' + {s};
      }
      left := left - {s};
    }
  }

  /** Finishing `node` keeps the counts exact and readies exactly the nodes it frees. */
  method Release(ghost g: Graph, node: Id, successors: set<Id>,
                 remaining: map<Id, nat>, ready: set<Id>, ghost done: set<Id>)
    returns (remaining': map<Id, nat>, ready': set<Id>)
    requires g.Closed() && node in g.nodes && node !in done
    requires forall n :: n in successors <==> (node, n) in g.edges
    requires Counts(g, done, remaining)
    ensures Counts(g, done + {node}, remaining')
    ensures ready' == ready + Freed(g, done, node)
  {
    forall n | n in successors ensures n in remaining && remaining[n] >= 1 {
      CountStep(g, done, node, remaining, n);
    }
    remaining', ready' := LowerDegrees(successors, remaining, ready);
    CountsAfter(g, done, node, successors, remaining, remaining');
  }

  /** What both schedulers are handed: the edges of `g` and its exact in-degrees. */
  ghost predicate Indexed(g: Graph, adjacency: map<Id, set<Id>>, inDegree: map<Id, nat>) {
    Adjacent(g, adjacency) && Counts(g, {}, inDegree)
  }

  lemma InitiallyReady(g: Graph, inDegree: map<Id, nat>)
    requires Counts(g, {}, inDegree)
    ensures (set n | n in g.nodes && inDegree[n] == 0) == g.Ready({})
  {
    forall n | n in g.nodes ensures inDegree[n] == 0 <==> g.Preds(n) <= {} {
      assert CountOf(g, {}, inDegree, n);
      assert g.Preds(n) - {} == g.Preds(n);
      assert g.Preds(n) <= {} <==> g.Preds(n) == {};
    }
  }

  /** Every node of `done` has all its predecessors in `done`. */
  ghost predicate DownClosed(g: Graph, done: set<Id>) {
    done <= g.nodes && forall n :: n in done ==> g.Preds(n) <= done
  }

  /** Finishing one ready node keeps what was ready, less that node, plus the freed nodes. */
  lemma ReadyAfter(g: Graph, done: set<Id>, node: Id)
    requires g.Closed() && DownClosed(g, done) && node in g.Ready(done)
    ensures DownClosed(g, done + {node})
    ensures g.Ready(done + {node}) == (g.Ready(done) - {node}) + Freed(g, done, node)
  {
    forall n | n in Freed(g, done, node) ensures n in g.Ready(done + {node}) {
      assert node in g.Preds(n);
    }
  }

  /** A duplicate-free list of nodes in which every node follows all its predecessors. */
  ghost predicate IsSchedulePrefix(g: Graph, order: seq<Id>) {
    && Distinct(order)
    && DownClosed(g, Elements(order))
    && forall i, j :: 0 <= i < |order| && 0 <= j < |order| && (order[i], order[j]) in g.edges ==> i < j
  }

  lemma ExtendPrefix(g: Graph, order: seq<Id>, next: Id)
    requires g.Closed() && IsSchedulePrefix(g, order) && next in g.Ready(Elements(order))
    ensures Elements(order + [next]) == Elements(order) + {next}
    ensures IsSchedulePrefix(g, order + [next])
  {
    var longer := order + [next];
    assert Elements(longer) == Elements(order) + {next};
    ReadyAfter(g, Elements(order), next);
    forall j | 0 <= j < |longer| ensures (next, longer[j]) !in g.edges {
      assert longer[j] in Elements(longer);
      assert next !in g.Preds(longer[j]);
    }
  }

  /**
    Kahn's algorithm.  It answers exactly when the graph has no cycle, and then with the
    lexicographically smallest topological order there is.
   */
  method TopologicalOrder(ghost g: Graph, nodeIds: set<Id>, adjacency: map<Id, set<Id>>, inDegree: map<Id, nat>)
    returns (r: Option<seq<Id>>)
    requires nodeIds == g.nodes && Indexed(g, adjacency, inDegree)
    ensures r.Some? <==> Acyclic(g)
    ensures r.Some? ==> IsTopologicalOrder(g, r.value)
    ensures r.Some? ==> forall t :: IsTopologicalOrder(g, t) ==> LexAtMost(r.value, t)
  {
    var remaining := inDegree;
    var ready := set n | n in nodeIds && inDegree[n] == 0;
    InitiallyReady(g, inDegree);
    var order: seq<Id> := [];
    assert Elements(order) == {};
    while ready != {}
      invariant IsSchedulePrefix(g, order)
      invariant Counts(g, Elements(order), remaining)
      invariant ready == g.Ready(Elements(order))
      invariant forall t :: IsTopologicalOrder(g, t) ==> LexAtMost(order, t)
      decreases nodeIds - Elements(order)
    {
      var next := First(ready);
      forall t | IsTopologicalOrder(g, t) ensures LexAtMost(order + [next], t) {
        LeastReadyKeepsLexAtMost(g, order, next, t);
      }
      ReadyAfter(g, Elements(order), next);
      ExtendPrefix(g, order, next);
      SuccessorsAreEdges(g, adjacency, next);
      remaining, ready := Release(g, next, Successors(adjacency, next), remaining, ready - {next}, Elements(order));
      order := order + [next];
    }
    DistinctCardinality(order);
    if |order| == |nodeIds| {
      SameCardinality(Elements(order), nodeIds);
      OrderImpliesAcyclic(g, order);
      r := Some(order);
    } else {
      StuckMeansCyclic(g, Elements(order));
      r := None;
    }
  }

  lemma SameCardinality<T>(a: set<T>, b: set<T>)
    requires a <= b && |a| == |b|
    ensures a == b
  {
    assert b == a + (b - a);
  }
}
