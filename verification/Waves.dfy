/**
  Levelling a proposal graph into concurrency waves, and why a node's wave is the length
  of the longest dependency walk that ends at it.
 */
module Waves {
  import opened Ids
  import opened Dag
  import opened Scheduling

  ghost function Covered(waves: seq<seq<Id>>): (r: set<Id>) {
    if waves == [] then {} else Covered(waves[..|waves| - 1]) + Elements(waves[|waves| - 1])
  }

  /** Every wave lists, in id order, exactly what the waves before it make ready. */
  ghost predicate Layered(g: Graph, waves: seq<seq<Id>>) {
    forall k :: 0 <= k < |waves| ==> IsNextWave(g, waves[..k], waves[k])
  }

  ghost predicate IsNextWave(g: Graph, before: seq<seq<Id>>, wave: seq<Id>) {
    Sorted(wave) && wave != [] && Elements(wave) == g.Ready(Covered(before))
  }

  lemma {:induction false} CoveredMember(waves: seq<seq<Id>>, n: Id)
    ensures n in Covered(waves) <==> exists k :: 0 <= k < |waves| && n in waves[k]
  {
    if waves != [] {
      var last := |waves| - 1;
      var front := waves[..last];
      CoveredMember(front, n);
      if n in Covered(front) {
        var k :| 0 <= k < |front| && n in front[k];
        assert n in waves[k];
      } else if n in waves[last] {
        assert n in Elements(waves[last]);
      } else {
        forall k | 0 <= k < |waves| ensures n !in waves[k] {
          if k < last { assert waves[k] == front[k]; }
        }
      }
    }
  }

  lemma {:induction false} CoveredDownClosed(g: Graph, waves: seq<seq<Id>>)
    requires g.Closed() && Layered(g, waves)
    ensures DownClosed(g, Covered(waves))
  {
    if waves != [] {
      var last := |waves| - 1;
      var front := waves[..last];
      LayeredPrefix(g, waves, last);
      CoveredDownClosed(g, front);
      assert IsNextWave(g, front, waves[last]);
    }
  }

  lemma LayeredPrefix(g: Graph, waves: seq<seq<Id>>, k: nat)
    requires Layered(g, waves) && k <= |waves|
    ensures Layered(g, waves[..k])
  {
    forall j | 0 <= j < k ensures IsNextWave(g, waves[..k][..j], waves[..k][j]) {
      assert waves[..k][..j] == waves[..j];
    }
  }

  /** No walk into wave `k` has more than `k` edges. */
  lemma {:induction false} WaveBoundsWalks(g: Graph, waves: seq<seq<Id>>, k: nat, n: Id, p: seq<Id>)
    requires g.Closed() && Layered(g, waves) && k < |waves| && n in waves[k] && WalkTo(g, p, n)
    ensures |p| <= k + 1
    decreases |p|
  {
    if |p| > 1 {
      var q := p[..|p| - 1];
      var m := q[|q| - 1];
      assert (m, n) in g.edges && m in g.Preds(n);
      assert IsNextWave(g, waves[..k], waves[k]) && n in Elements(waves[k]);
      CoveredMember(waves[..k], m);
      var j :| 0 <= j < k && m in waves[..k][j];
      WaveBoundsWalks(g, waves, j, m, q);
    }
  }

  /** Some walk into wave `k` has exactly `k` edges. */
  lemma {:induction false} WaveHasWalk(g: Graph, waves: seq<seq<Id>>, k: nat, n: Id) returns (p: seq<Id>)
    requires g.Closed() && Layered(g, waves) && k < |waves| && n in waves[k]
    ensures WalkTo(g, p, n) && |p| == k + 1
  {
    assert IsNextWave(g, waves[..k], waves[k]) && n in Elements(waves[k]);
    if k == 0 {
      p := [n];
    } else {
      var m := PredInPreviousWave(g, waves, k, n);
      var q := WaveHasWalk(g, waves, k - 1, m);
      p := q + [n];
    }
  }

  lemma PredInPreviousWave(g: Graph, waves: seq<seq<Id>>, k: nat, n: Id) returns (m: Id)
    requires g.Closed() && Layered(g, waves) && 0 < k < |waves| && n in waves[k]
    ensures (m, n) in g.edges && m in waves[k - 1]
  {
    var before := waves[..k];
    assert IsNextWave(g, before, waves[k]) && n in Elements(waves[k]);
    assert IsNextWave(g, waves[..k - 1], waves[k - 1]);
    assert before[..k - 1] == waves[..k - 1];
    assert n !in Covered(before);
    assert Covered(before) == Covered(waves[..k - 1]) + Elements(waves[k - 1]);
    assert n !in g.Ready(Covered(waves[..k - 1]));
    m :| m in g.Preds(n) && m !in Covered(waves[..k - 1]);
  }

  /** In a finished levelling, wave `k` is the set of nodes at walk depth `k`. */
  lemma WaveIsLevelSet(g: Graph, waves: seq<seq<Id>>, k: nat)
    requires g.Closed() && Layered(g, waves) && Covered(waves) == g.nodes && k < |waves|
    ensures Elements(waves[k]) == LevelSet(g, k)
  {
    CoveredDownClosed(g, waves);
    forall n | n in waves[k] ensures n in LevelSet(g, k) {
      CoveredMember(waves, n);
      InWaveLongest(g, waves, k, n);
    }
    forall n | n in LevelSet(g, k) ensures n in waves[k] {
      CoveredMember(waves, n);
      var j :| 0 <= j < |waves| && n in waves[j];
      InWaveLongest(g, waves, j, n);
      LongestWalkUnique(g, n, j, k);
    }
  }

  lemma InWaveLongest(g: Graph, waves: seq<seq<Id>>, k: nat, n: Id)
    requires g.Closed() && Layered(g, waves) && k < |waves| && n in waves[k]
    ensures LongestWalk(g, n, k)
  {
    var p := WaveHasWalk(g, waves, k, n);
    forall q | WalkTo(g, q, n) ensures |q| <= k + 1 { WaveBoundsWalks(g, waves, k, n, q); }
  }

  lemma LongestWalkUnique(g: Graph, n: Id, j: nat, k: nat)
    requires LongestWalk(g, n, j) && LongestWalk(g, n, k)
    ensures j == k
  {
    var p :| WalkTo(g, p, n) && |p| == j + 1;
    var q :| WalkTo(g, q, n) && |q| == k + 1;
  }

  /**
    The schedule a proposal graph must get: wave `k` lists in id order the nodes whose
    longest incoming walk has `k` edges, no wave is empty, and no node is left over.
   */
  ghost predicate IsWaveSchedule(g: Graph, waves: seq<seq<Id>>) {
    && (forall k :: 0 <= k < |waves| ==> Sorted(waves[k]) && waves[k] != [] && Elements(waves[k]) == LevelSet(g, k))
    && (forall n :: n in g.nodes ==> exists k :: 0 <= k < |waves| && n in waves[k])
  }

  lemma LayeredIsSchedule(g: Graph, waves: seq<seq<Id>>)
    requires g.Closed() && Layered(g, waves) && Covered(waves) == g.nodes
    ensures IsWaveSchedule(g, waves)
  {
    forall k | 0 <= k < |waves| ensures Elements(waves[k]) == LevelSet(g, k) && Sorted(waves[k]) && waves[k] != [] {
      WaveIsLevelSet(g, waves, k);
      assert IsNextWave(g, waves[..k], waves[k]);
    }
    forall n | n in g.nodes ensures exists k :: 0 <= k < |waves| && n in waves[k] { CoveredMember(waves, n); }
  }

  /** Nodes freed by going from `before` to `after`. */
  ghost function FreedBetween(g: Graph, before: set<Id>, after: set<Id>): (r: set<Id>) {
    set n | n in g.nodes && g.Preds(n) <= after && !(g.Preds(n) <= before)
  }

  lemma FreedStep(g: Graph, before: set<Id>, mid: set<Id>, node: Id)
    requires g.Closed() && node in g.nodes && before <= mid && node !in mid
    ensures FreedBetween(g, before, mid + {node}) == FreedBetween(g, before, mid) + Freed(g, mid, node)
  {
    forall n | n in Freed(g, mid, node) ensures !(g.Preds(n) <= before) { assert node in g.Preds(n); }
  }

  lemma FreedByWave(g: Graph, done: set<Id>, wave: set<Id>)
    requires g.Closed() && DownClosed(g, done) && wave == g.Ready(done)
    ensures DownClosed(g, done + wave)
    ensures FreedBetween(g, done, done + wave) == g.Ready(done + wave)
  {
  }

  /** The body of one wave: every node of it releases its successors. */
  method RunWave(ghost g: Graph, adjacency: map<Id, set<Id>>, wave: seq<Id>, remaining: map<Id, nat>,
                 ghost done: set<Id>)
    returns (remaining': map<Id, nat>, nextReady: set<Id>)
    requires Adjacent(g, adjacency) && DownClosed(g, done) && Counts(g, done, remaining)
    requires Sorted(wave) && Elements(wave) == g.Ready(done)
    ensures Counts(g, done + Elements(wave), remaining')
    ensures nextReady == g.Ready(done + Elements(wave))
  {
    remaining', nextReady := remaining, {};
    assert done + Elements(wave[..0]) == done;
    for i := 0 to |wave|
      invariant Counts(g, done + Elements(wave[..i]), remaining')
      invariant nextReady == FreedBetween(g, done, done + Elements(wave[..i]))
    {
      ghost var mid := done + Elements(wave[..i]);
      NotYetRun(g, done, wave, i);
      FreedStep(g, done, mid, wave[i]);
      SuccessorsAreEdges(g, adjacency, wave[i]);
      remaining', nextReady := Release(g, wave[i], Successors(adjacency, wave[i]), remaining', nextReady, mid);
      assert done + Elements(wave[..i + 1]) == mid + {wave[i]};
    }
    assert wave[..|wave|] == wave;
    FreedByWave(g, done, Elements(wave));
  }

  lemma NotYetRun(g: Graph, done: set<Id>, wave: seq<Id>, i: nat)
    requires Sorted(wave) && Elements(wave) == g.Ready(done) && i < |wave|
    ensures wave[i] in g.nodes && wave[i] !in done + Elements(wave[..i])
  {
    assert wave[i] in Elements(wave);
    LessIrreflexive(wave[i]);
  }

  datatype ScheduleError =
    | QueueDepthExceeded(nodes: nat)
    | JoinWidthExceeded(node: Id, degree: nat)
    | FanOutExceeded(size: nat)

  /** One fan-out error for every oversized wave, in wave order. */
  function FanOutErrors(waves: seq<seq<Id>>, maxFanOut: nat): (r: seq<ScheduleError>) {
    if waves == [] then []
    else
      var last := waves[|waves| - 1];
      FanOutErrors(waves[..|waves| - 1], maxFanOut) + if |last| > maxFanOut then [FanOutExceeded(|last|)] else []
  }

  /** One error for each wave that is too wide, with its width, in the order of the waves. */
  ghost predicate TooWide(waves: seq<seq<Id>>, maxFanOut: nat, at: seq<nat>, errors: seq<ScheduleError>) {
    && |at| == |errors| && (forall i, j :: 0 <= i < j < |at| ==> at[i] < at[j])
    && (forall j :: 0 <= j < |at| ==>
          at[j] < |waves| && maxFanOut < |waves[at[j]]| && errors[j] == FanOutExceeded(|waves[at[j]]|))
    && forall k :: 0 <= k < |waves| && maxFanOut < |waves[k]| ==> k in at
  }

  lemma {:induction false} FanOutExactly(waves: seq<seq<Id>>, maxFanOut: nat) returns (at: seq<nat>)
    ensures TooWide(waves, maxFanOut, at, FanOutErrors(waves, maxFanOut))
  {
    at := [];
    if waves != [] {
      var n := |waves| - 1;
      at := FanOutExactly(waves[..n], maxFanOut);
      assert waves == waves[..n] + [waves[n]];
      if maxFanOut < |waves[n]| {
        at := at + [n];
      }
    }
  }

  /** The wave loop over an acyclic graph. */
  method Levelize(ghost g: Graph, nodeIds: set<Id>, adjacency: map<Id, set<Id>>, inDegree: map<Id, nat>, maxFanOut: nat)
    returns (waves: seq<seq<Id>>, errors: seq<ScheduleError>)
    requires nodeIds == g.nodes && Indexed(g, adjacency, inDegree) && Acyclic(g)
    ensures IsWaveSchedule(g, waves)
    ensures errors == FanOutErrors(waves, maxFanOut)
  {
    var remaining := inDegree;
    var ready := set n | n in nodeIds && inDegree[n] == 0;
    InitiallyReady(g, inDegree);
    waves, errors := [], [];
    while ready != {}
      invariant Layered(g, waves)
      invariant Counts(g, Covered(waves), remaining)
      invariant ready == g.Ready(Covered(waves))
      invariant errors == FanOutErrors(waves, maxFanOut)
      decreases nodeIds - Covered(waves)
    {
      CoveredDownClosed(g, waves);
      var wave := InOrder(ready);
      if |wave| > maxFanOut {
        errors := errors + [FanOutExceeded(|wave|)];
      }
      remaining, ready := RunWave(g, adjacency, wave, remaining, Covered(waves));
      ExtendLayers(g, waves, wave);
      assert (waves + [wave])[..|waves|] == waves;
      waves := waves + [wave];
    }
    CoveredDownClosed(g, waves);
    if Covered(waves) != g.nodes { StuckMeansCyclic(g, Covered(waves)); }
    LayeredIsSchedule(g, waves);
  }

  lemma {:induction false} NoFanOutErrors(waves: seq<seq<Id>>, maxFanOut: nat)
    ensures FanOutErrors(waves, maxFanOut) == [] <==> forall k :: 0 <= k < |waves| ==> |waves[k]| <= maxFanOut
  {
    if waves != [] {
      var front := waves[..|waves| - 1];
      NoFanOutErrors(front, maxFanOut);
      assert waves == front + [waves[|waves| - 1]];
    }
  }

  lemma ExtendLayers(g: Graph, waves: seq<seq<Id>>, wave: seq<Id>)
    requires Layered(g, waves) && Sorted(wave)
    requires Elements(wave) == g.Ready(Covered(waves)) && g.Ready(Covered(waves)) != {}
    ensures Layered(g, waves + [wave])
    ensures Covered(waves + [wave]) == Covered(waves) + Elements(wave)
    ensures Covered(waves) < Covered(waves + [wave])
  {
    var longer := waves + [wave];
    assert longer[..|waves|] == waves;
    var n :| n in Elements(wave);
    assert n in Covered(longer) && n !in Covered(waves);
    forall k | 0 <= k < |longer| ensures IsNextWave(g, longer[..k], longer[k]) {
      if k < |waves| {
        assert longer[..k] == waves[..k];
        assert IsNextWave(g, waves[..k], waves[k]);
      }
    }
  }

  /** A node sits in one wave only. */
  lemma WavesDisjoint(g: Graph, waves: seq<seq<Id>>, i: nat, j: nat, n: Id)
    requires IsWaveSchedule(g, waves) && i < |waves| && j < |waves| && n in waves[i] && n in waves[j]
    ensures i == j
  {
    assert n in Elements(waves[i]) && n in Elements(waves[j]);
    LongestWalkUnique(g, n, i, j);
  }

  /** Any walk of one or more edges leads to a strictly later wave. */
  lemma WalkClimbsWaves(g: Graph, waves: seq<seq<Id>>, p: seq<Id>, i: nat, j: nat)
    requires IsWaveSchedule(g, waves) && i < |waves| && j < |waves|
    requires IsWalk(g, p) && |p| >= 2 && p[0] in waves[i] && p[|p| - 1] in waves[j]
    ensures i < j
  {
    var a, b := p[0], p[|p| - 1];
    assert a in Elements(waves[i]) && b in Elements(waves[j]);
    var q :| WalkTo(g, q, a) && |q| == i + 1;
    JoinWalks(g, q, p);
    assert WalkTo(g, q + p[1..], b);
  }

  /** Under any start times that respect the edges, a node of wave `k` starts at `k` or later. */
  lemma WavesAreEarliest(g: Graph, waves: seq<seq<Id>>, time: map<Id, nat>, k: nat, n: Id)
    requires IsWaveSchedule(g, waves) && RespectsEdges(g, time) && k < |waves| && n in waves[k]
    ensures n in time && time[n] >= k
  {
    assert n in Elements(waves[k]);
    var p :| WalkTo(g, p, n) && |p| == k + 1;
    WalkDelays(g, time, p);
  }

  /** So no schedule that respects the edges uses fewer time slots than there are waves. */
  lemma WavesAreFewest(g: Graph, waves: seq<seq<Id>>, time: map<Id, nat>, slots: nat)
    requires IsWaveSchedule(g, waves) && RespectsEdges(g, time)
    requires forall n :: n in time ==> time[n] < slots
    ensures |waves| <= slots
  {
    if waves != [] {
      var k := |waves| - 1;
      WavesAreEarliest(g, waves, time, k, waves[k][0]);
    }
  }
}
