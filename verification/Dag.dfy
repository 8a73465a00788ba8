/**
  Directed graphs over node ids: walks, cycles, topological orders, and the facts that
  tie Kahn's algorithm to them.
 */
module Dag {
  import opened Ids

  datatype Graph = Graph(nodes: set<Id>, edges: set<(Id, Id)>) {
    predicate Closed() {
      forall e :: e in edges ==> e.0 in nodes && e.1 in nodes
    }

    function Preds(n: Id): (r: set<Id>) {
      set m | m in nodes && (m, n) in edges
    }

    /** Nodes outside `done` all of whose predecessors are in `done`. */
    function Ready(done: set<Id>): (r: set<Id>) {
      set n | n in nodes && n !in done && Preds(n) <= done
    }
  }

  ghost predicate IsWalk(g: Graph, p: seq<Id>) {
    && |p| > 0
    && (forall i :: 0 <= i < |p| ==> p[i] in g.nodes)
    && (forall i :: 0 <= i < |p| - 1 ==> (p[i], p[i + 1]) in g.edges)
  }

  ghost predicate IsCycle(g: Graph, p: seq<Id>) {
    IsWalk(g, p) && |p| >= 2 && p[0] == p[|p| - 1]
  }

  ghost predicate Acyclic(g: Graph) {
    !exists p :: IsCycle(g, p)
  }

  ghost predicate Distinct<T>(s: seq<T>) {
    forall i, j :: 0 <= i < j < |s| ==> s[i] != s[j]
  }

  ghost predicate IsTopologicalOrder(g: Graph, order: seq<Id>) {
    && Distinct(order)
    && Elements(order) == g.nodes
    && forall i, j :: 0 <= i < |order| && 0 <= j < |order| && (order[i], order[j]) in g.edges ==> i < j
  }

  /** `a` is a prefix of `b`, or is smaller at the first place where they differ. */
  ghost predicate LexAtMost(a: seq<Id>, b: seq<Id>) {
    a <= b || exists k: nat :: FirstDifferenceBelow(a, b, k)
  }

  ghost predicate FirstDifferenceBelow(a: seq<Id>, b: seq<Id>, k: nat) {
    k < |a| && k < |b| && a[..k] == b[..k] && Less(a[k], b[k])
  }

  /** On lists of one length the relation is antisymmetric, so a least list is unique. */
  lemma LexAtMostAntisymmetric(a: seq<Id>, b: seq<Id>)
    requires |a| == |b| && LexAtMost(a, b) && LexAtMost(b, a)
    ensures a == b
  {
    if a != b {
      var k: nat :| FirstDifferenceBelow(a, b, k);
      var j: nat :| FirstDifferenceBelow(b, a, j);
      if k < j { assert b[..j][k] == a[..j][k]; }
      if j < k { assert b[..k][j] == a[..k][j]; }
      if k == j { LessTransitive(a[k], b[k], a[k]); }
      LessIrreflexive(a[k]);
      LessIrreflexive(b[j]);
    }
  }

  lemma {:induction false} DistinctCardinality<T>(s: seq<T>)
    requires Distinct(s)
    ensures |Elements(s)| == |s|
  {
    if s != [] {
      DistinctCardinality(s[1..]);
      assert s[0] !in s[1..];
      assert Elements(s) == {s[0]} + Elements(s[1..]);
    }
  }

  /** Pigeonhole: a list longer than a set that holds all its elements repeats one. */
  lemma Pigeonhole<T>(p: seq<T>, s: set<T>) returns (i: nat, j: nat)
    requires Elements(p) <= s && |p| > |s|
    ensures i < j < |p| && p[i] == p[j]
  {
    if Distinct(p) {
      DistinctCardinality(p);
      SubsetCardinality(Elements(p), s);
    }
    i, j :| 0 <= i < j < |p| && p[i] == p[j];
  }

  lemma SubsetCardinality<T>(a: set<T>, b: set<T>)
    requires a <= b
    ensures |a| <= |b|
  {
    assert b == a + (b - a);
  }

  /** Along a walk, positions in a topological order strictly grow. */
  lemma {:induction false} WalkClimbs(g: Graph, order: seq<Id>, p: seq<Id>, i: nat, j: nat)
    requires g.Closed() && IsTopologicalOrder(g, order) && IsWalk(g, p) && |p| >= 2
    requires i < |order| && j < |order| && order[i] == p[0] && order[j] == p[|p| - 1]
    ensures i < j
  {
    assert (p[0], p[1]) in g.edges;
    if |p| > 2 {
      assert p[1] in Elements(order);
      var m :| 0 <= m < |order| && order[m] == p[1];
      WalkClimbs(g, order, p[1..], m, j);
    }
  }

  lemma OrderImpliesAcyclic(g: Graph, order: seq<Id>)
    requires g.Closed() && IsTopologicalOrder(g, order)
    ensures Acyclic(g)
  {
    forall p | IsCycle(g, p) ensures false {
      assert p[0] in Elements(order);
      var i :| 0 <= i < |order| && order[i] == p[0];
      WalkClimbs(g, order, p, i, i);
    }
  }

  /** In a set where every node keeps a predecessor, walks of any length exist. */
  lemma {:induction false} BackwardWalk(g: Graph, s: set<Id>, k: nat) returns (p: seq<Id>)
    requires s != {} && s <= g.nodes
    requires forall n :: n in s ==> g.Preds(n) * s != {}
    ensures IsWalk(g, p) && |p| == k + 1 && Elements(p) <= s
  {
    if k == 0 {
      var n :| n in s;
      p := [n];
    } else {
      var q := BackwardWalk(g, s, k - 1);
      assert q[0] in Elements(q);
      var m :| m in g.Preds(q[0]) * s;
      p := [m] + q;
      assert (m, q[0]) in g.edges;
    }
  }

  /** A walk that repeats a node contains a cycle. */
  lemma RepeatGivesCycle(g: Graph, p: seq<Id>, i: nat, j: nat)
    requires IsWalk(g, p) && i < j < |p| && p[i] == p[j]
    ensures !Acyclic(g)
  {
    var c := p[i..j + 1];
    forall k | 0 <= k < |c| - 1 ensures (c[k], c[k + 1]) in g.edges {
      assert (p[i + k], p[i + k + 1]) in g.edges;
    }
    assert IsCycle(g, c);
  }

  /** When nothing is ready and nodes are left, the left-over nodes hold a cycle. */
  lemma StuckMeansCyclic(g: Graph, done: set<Id>)
    requires g.Closed() && done <= g.nodes && g.Ready(done) == {} && done != g.nodes
    ensures !Acyclic(g)
  {
    var left := g.nodes - done;
    forall n | n in left ensures g.Preds(n) * left != {} {
      assert n !in g.Ready(done);
      var m :| m in g.Preds(n) && m !in done;
      assert m in g.Preds(n) * left;
    }
    var p := BackwardWalk(g, left, |left|);
    var i, j := Pigeonhole(p, left);
    RepeatGivesCycle(g, p, i, j);
  }

  /** Whatever order agrees with `prefix` so far must continue with a ready node. */
  lemma NextIsReady(g: Graph, prefix: seq<Id>, order: seq<Id>)
    requires g.Closed() && IsTopologicalOrder(g, order)
    requires prefix <= order && |prefix| < |order|
    ensures order[|prefix|] in g.Ready(Elements(prefix))
  {
    var n := order[|prefix|];
    assert n in Elements(order);
    forall m | m in g.Preds(n) ensures m in Elements(prefix) {
      assert m in Elements(order);
      var i :| 0 <= i < |order| && order[i] == m;
      assert order[i] == prefix[i];
    }
  }

  /** Appending the least ready node keeps a list lexicographically at most every order. */
  lemma LeastReadyKeepsLexAtMost(g: Graph, prefix: seq<Id>, next: Id, order: seq<Id>)
    requires g.Closed() && IsTopologicalOrder(g, order) && LexAtMost(prefix, order)
    requires Distinct(prefix) && IsLeast(next, g.Ready(Elements(prefix)))
    ensures LexAtMost(prefix + [next], order)
  {
    var longer := prefix + [next];
    if prefix <= order {
      assert next in Elements(order);
      var i :| 0 <= i < |order| && order[i] == next;
      assert order[i] !in prefix;
      NextIsReady(g, prefix, order);
      if next == order[|prefix|] {
        assert longer <= order;
      } else {
        assert FirstDifferenceBelow(longer, order, |prefix|);
      }
    } else {
      var k: nat :| FirstDifferenceBelow(prefix, order, k);
      assert longer[..k] == prefix[..k];
      assert FirstDifferenceBelow(longer, order, k);
    }
  }

  /** Walks that meet can be joined. */
  lemma JoinWalks(g: Graph, q: seq<Id>, p: seq<Id>)
    requires IsWalk(g, q) && IsWalk(g, p) && q[|q| - 1] == p[0]
    ensures IsWalk(g, q + p[1..]) && |q + p[1..]| == |q| + |p| - 1 && (q + p[1..])[|q| + |p| - 2] == p[|p| - 1]
  {
    var joined := q + p[1..];
    var turn := |q| - 1;
    forall k | 0 <= k < |joined| ensures joined[k] == if k < turn then q[k] else p[k - turn] {}
    forall k | 0 <= k < |joined| - 1 ensures (joined[k], joined[k + 1]) in g.edges {
      if k < turn { assert (q[k], q[k + 1]) in g.edges; } else { assert (p[k - turn], p[k - turn + 1]) in g.edges; }
    }
  }

  /** The longest walk ending at `n` has `k` edges. */
  ghost predicate LongestWalk(g: Graph, n: Id, k: nat) {
    && (exists p :: WalkTo(g, p, n) && |p| == k + 1)
    && (forall p :: WalkTo(g, p, n) ==> |p| <= k + 1)
  }

  ghost predicate WalkTo(g: Graph, p: seq<Id>, n: Id) {
    IsWalk(g, p) && p[|p| - 1] == n
  }

  ghost function LevelSet(g: Graph, k: nat): (r: set<Id>) {
    set n | n in g.nodes && LongestWalk(g, n, k)
  }

  /** An assignment of start times under which every node starts after its predecessors. */
  ghost predicate RespectsEdges(g: Graph, time: map<Id, nat>) {
    time.Keys == g.nodes && forall e :: e in g.edges ==> e.0 in time && e.1 in time && time[e.0] < time[e.1]
  }

  /** A walk with k edges forces its last node to start at time k or later. */
  lemma {:induction false} WalkDelays(g: Graph, time: map<Id, nat>, p: seq<Id>)
    requires RespectsEdges(g, time) && IsWalk(g, p)
    ensures time[p[|p| - 1]] >= |p| - 1
  {
    if |p| > 1 {
      var q := p[..|p| - 1];
      WalkDelays(g, time, q);
      assert (p[|p| - 2], p[|p| - 1]) in g.edges;
    }
  }
}
