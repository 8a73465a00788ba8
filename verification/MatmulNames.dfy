/** Replacing a dynamic product, seen by names alone: when the new list is sorted, and what the next rewrite finds. */
module MatmulNames {
  import opened OnnxGraph
  import opened OnnxOrder
  import opened QuantizeChain
  import opened MatmulSite
  import opened DynamicMatmuls

  predicate AllOriginal(nodes: seq<Node>) {
    forall n :: n in nodes ==> forall i :: 0 <= i < |n.outputs| ==> Original(n.outputs[i])
  }

  /** Not a name that rewrite `k` or a later one of `todo` will make up. */
  predicate FreshName(n: Name, todo: seq<Node>, k: nat) {
    var root := Root(n);
    (root.Prefixed? ==> root.rewrite < k) && (root.Float? ==> root.of !in AllOutputs(todo))
  }

  predicate AllFresh(names: set<Name>, todo: seq<Node>, k: nat) {
    forall n :: n in names ==> FreshName(n, todo, k)
  }

  /** A node list cut where a product is quantised, with the names defined before it. */
  datatype Cut = Cut(done: seq<Node>, rest: seq<Node>, defined: set<Name>) {
    function Before(site: Site): (nodes: seq<Node>) {
      done + [site.dql] + rest
    }

    function Todo(site: Site): (nodes: seq<Node>) {
      [site.dql] + rest
    }

    function Less(site: Site): (nodes: seq<Node>) {
      Dropped(rest, site.product, site.cast)
    }

    function After(site: Site, k: nat): (nodes: seq<Node>) requires site.Shaped() {
      done + site.Replacement(k) + Less(site)
    }

    /** What is defined when the run comes to the site. */
    function Here(): (names: set<Name>) {
      defined + AllOutputs(done)
    }

    /** The three nodes are in a sorted list, and the names that the rewrite makes up are not. */
    ghost predicate Holds(site: Site, k: nat) {
      && site.Shaped() && Sorted(Before(site), defined)
      && site.product in Before(site) && site.cast in Before(site)
      && AllOriginal(Todo(site)) && AllFresh(defined + AllOutputs(Before(site)), Todo(site), k)
    }
  }

  /** Nothing but the product and the cast reads a name that goes away. */
  ghost predicate NoStrayReader(site: Site, rest: seq<Node>)
    requires site.Shaped()
  {
    forall n :: n in rest && n != site.product && n != site.cast ==> !ReadsAny(n, site.Gone())
  }

  predicate ReadsAny(node: Node, names: set<Name>) {
    exists i :: 0 <= i < |node.inputs| && node.inputs[i] in names
  }

  // ---- where things stand --------------------------------------------------------------------------

  lemma Parts(cut: Cut, site: Site)
    requires Sorted(cut.Before(site), cut.defined)
    ensures Sorted(cut.done, cut.defined) && Runnable(site.dql, cut.Here())
    ensures Sorted(cut.Todo(site), cut.Here()) && Sorted(cut.rest, cut.Here() + Outputs(site.dql))
    ensures AllOutputs(cut.Before(site)) == AllOutputs(cut.done) + Outputs(site.dql) + AllOutputs(cut.rest)
  {
    assert cut.Before(site) == cut.done + cut.Todo(site) && cut.Todo(site)[1..] == cut.rest;
    SortedAppend(cut.done, cut.Todo(site), cut.defined);
    OutputsAppend(cut.done, cut.Todo(site));
  }

  lemma PairLater(cut: Cut, site: Site, k: nat)
    requires cut.Holds(site, k)
    ensures site.product in cut.rest && site.cast in cut.rest && site.product != site.cast
  {
    var todo := cut.Todo(site);
    assert cut.Before(site) == cut.done + todo;
    ReaderLater(cut.done, todo, cut.defined, site.dql, site.product, site.dql.outputs[0]);
    ReaderLater(cut.done, todo, cut.defined, site.product, site.cast, site.product.outputs[0]);
  }

  lemma OriginalNames(cut: Cut, site: Site, k: nat)
    requires cut.Holds(site, k)
    ensures Original(site.ScaleName()) && Original(site.Out()) && forall g :: g in site.Gone() ==> Original(g)
  {
    PairLater(cut, site, k);
    assert site.dql in cut.Todo(site) && site.product in cut.Todo(site) && site.cast in cut.Todo(site);
  }

  lemma ThreeOutputs(node: Node, defined: set<Name>)
    requires |node.outputs| == 3 && Runnable(node, defined)
    ensures node.outputs[0] !in defined && node.outputs[1] !in defined && node.outputs[2] !in defined
    ensures node.outputs[1] != node.outputs[0] && node.outputs[1] != node.outputs[2]
    ensures Outputs(node) == {node.outputs[0], node.outputs[1], node.outputs[2]}
  {
  }

  lemma QuantizedNames(cut: Cut, site: Site, k: nat)
    requires cut.Holds(site, k)
    ensures site.ScaleName() !in cut.Here() && site.dql.outputs[0] !in cut.Here() && site.dql.outputs[2] !in cut.Here()
    ensures site.ScaleName() != site.dql.outputs[0] && site.ScaleName() != site.dql.outputs[2]
    ensures Outputs(site.dql) == {site.dql.outputs[0], site.ScaleName(), site.dql.outputs[2]}
  {
    Parts(cut, site);
    ThreeOutputs(site.dql, cut.Here());
  }

  lemma PairNames(cut: Cut, site: Site, k: nat)
    requires cut.Holds(site, k)
    ensures site.Out() !in cut.Here() + Outputs(site.dql) && site.product.outputs[0] !in cut.Here() + Outputs(site.dql)
    ensures site.Out() != site.product.outputs[0]
  {
    PairLater(cut, site, k);
    Parts(cut, site);
    var defined := cut.Here() + Outputs(site.dql);
    NotYet(cut.rest, defined, site.cast, site.Out());
    NotYet(cut.rest, defined, site.product, site.product.outputs[0]);
    if site.Out() == site.product.outputs[0] {
      OneWriter(cut.rest, defined, site.product, site.cast, site.Out());
    }
  }

  lemma NewNames(cut: Cut, site: Site, k: nat)
    requires cut.Holds(site, k)
    ensures site.ScaleName() !in cut.Here() && site.Out() !in cut.Here() && site.ScaleName() != site.Out()
    ensures forall g :: g in site.Gone() ==> g !in cut.Here() && g != site.ScaleName() && g != site.Out() && Original(g)
    ensures Original(site.ScaleName()) && Original(site.Out())
  {
    OriginalNames(cut, site, k);
    QuantizedNames(cut, site, k);
    PairNames(cut, site, k);
  }

  lemma NotInDone(cut: Cut, site: Site, k: nat)
    requires cut.Holds(site, k)
    ensures site.dql !in cut.done && site.product !in cut.done && site.cast !in cut.done
  {
    NewNames(cut, site, k);
    assert site.dql.outputs[0] in site.Gone() && site.product.outputs[0] in site.Gone();
    if site.dql in cut.done {
      OutputIn(cut.done, site.dql, site.dql.outputs[0]);
    }
    if site.product in cut.done {
      OutputIn(cut.done, site.product, site.product.outputs[0]);
    }
    if site.cast in cut.done {
      OutputIn(cut.done, site.cast, site.Out());
    }
  }

  // ---- names that are made up ----------------------------------------------------------------------

  lemma FreshUnused(names: set<Name>, todo: seq<Node>, k: nat, zeroPoint: Name, scale: Name, out: Name, made: set<Name>)
    requires AllChainNames(made, k, zeroPoint, scale, out) && AllFresh(names, todo, k)
    requires zeroPoint in AllOutputs(todo) && scale !in names && out !in names
    ensures made !! names && ConstantNames(k) !! names
  {
    forall n | n in names ensures n !in made && n !in ConstantNames(k) {
      assert FreshName(n, todo, k);
      assert n in made ==> ChainName(n, k, zeroPoint, scale, out);
    }
  }

  lemma Unmade(cut: Cut, site: Site, k: nat)
    requires cut.Holds(site, k)
    ensures site.Written(k) !! cut.Here() && ConstantNames(k) !! cut.Here()
  {
    NewNames(cut, site, k);
    Parts(cut, site);
    OutputIn(cut.Todo(site), site.dql, site.dql.outputs[2]);
    assert AllFresh(cut.Here(), cut.Todo(site), k);
    assert AllChainNames(site.Written(k), k, site.dql.outputs[2], site.ScaleName(), site.Out()) by {
      WrittenMade(k, site.ScaleName(), site.dql.outputs[2], site.Out());
    }
    FreshUnused(cut.Here(), cut.Todo(site), k, site.dql.outputs[2], site.ScaleName(), site.Out(), site.Written(k));
  }

  // ---- when the new list is sorted -----------------------------------------------------------------

  /** What has been defined in the new list, beside what was defined in the old one. */
  predicate Alongside(was: set<Name>, now: set<Name>, gone: set<Name>, out: Name) {
    && (forall n :: n in was && n !in gone ==> n in now)
    && (forall n :: n in now ==> n in was || !Original(n) || n == out)
    && out in now
  }

  /** A node of the rest other than the pair runs in the new list as it did in the old one. */
  lemma OrdinaryRuns(b: Node, rest: seq<Node>, c: Node, was: set<Name>, now: set<Name>, gone: set<Name>, out: Name)
    requires Runnable(b, was) && Alongside(was, now, gone, out) && !ReadsAny(b, gone)
    requires forall i :: 0 <= i < |b.outputs| ==> Original(b.outputs[i])
    requires out in c.outputs && Sorted(rest, was + Outputs(b)) && (c in rest || out in was)
    ensures Runnable(b, now) && Alongside(was + Outputs(b), now + Outputs(b), gone, out)
  {
    if c in rest {
      NotYet(rest, was + Outputs(b), c, out);
    }
    forall i | 0 <= i < |b.outputs| ensures b.outputs[i] !in now {
      assert b.outputs[i] in Outputs(b);
    }
  }

  lemma {:induction false} RestSorted(rest: seq<Node>, p: Node, c: Node, was: set<Name>, now: set<Name>,
                                      gone: set<Name>, out: Name)
    requires Sorted(rest, was) && Alongside(was, now, gone, out) && AllOriginal(rest)
    requires Outputs(p) <= gone && c.outputs == [out] && (c in rest || out in was)
    requires forall n :: n in rest && n != p && n != c ==> !ReadsAny(n, gone)
    ensures Sorted(Dropped(rest, p, c), now)
  {
    if rest != [] {
      var b := rest[0];
      assert b in rest && AllOriginal(rest[1..]);
      assert forall n :: n in rest[1..] ==> n in rest;
      if b == p || b == c {
        RestSorted(rest[1..], p, c, was + Outputs(b), now, gone, out);
      } else {
        assert c in rest ==> c in rest[1..];
        OrdinaryRuns(b, rest[1..], c, was, now, gone, out);
        RestSorted(rest[1..], p, c, was + Outputs(b), now + Outputs(b), gone, out);
        assert Dropped(rest, p, c)[1..] == Dropped(rest[1..], p, c);
      }
    }
  }

  /** What is defined after the chain of the new list. */
  function Now(cut: Cut, site: Site, k: nat): (names: set<Name>)
    requires site.Shaped()
  {
    cut.Here() + ConstantNames(k) + site.Written(k)
  }

  lemma WrittenHas(k: nat, scale: Name, zeroPoint: Name, out: Name)
    ensures scale in ChainNames(k, scale, zeroPoint, out) && out in ChainNames(k, scale, zeroPoint, out)
  {
    assert scale in ScaleNames(k, scale) && out in ProductNames(k, out);
  }

  lemma AlongsideOf(here: set<Name>, outputs: set<Name>, constants: set<Name>, made: set<Name>, gone: set<Name>,
                    k: nat, zeroPoint: Name, scale: Name, out: Name)
    requires AllChainNames(made, k, zeroPoint, scale, out) && scale in made && out in made && scale in outputs
    requires outputs <= gone + {scale} && forall n :: n in constants ==> n.Prefixed?
    ensures Alongside(here + outputs, here + constants + made, gone, out)
  {
    forall n | n in here + constants + made ensures n in here + outputs || !Original(n) || n == out {
      assert n in made ==> ChainName(n, k, zeroPoint, scale, out);
    }
  }

  lemma AlongsideHere(cut: Cut, site: Site, k: nat)
    requires cut.Holds(site, k)
    ensures Alongside(cut.Here() + Outputs(site.dql), Now(cut, site, k), site.Gone(), site.Out())
  {
    QuantizedNames(cut, site, k);
    WrittenHas(k, site.ScaleName(), site.dql.outputs[2], site.Out());
    assert AllChainNames(site.Written(k), k, site.dql.outputs[2], site.ScaleName(), site.Out()) by {
      WrittenMade(k, site.ScaleName(), site.dql.outputs[2], site.Out());
    }
    AlongsideOf(cut.Here(), Outputs(site.dql), ConstantNames(k), site.Written(k), site.Gone(),
                k, site.dql.outputs[2], site.ScaleName(), site.Out());
  }

  /** The new list up to the end of the chain. */
  lemma StartSorted(cut: Cut, site: Site, k: nat)
    requires cut.Holds(site, k)
    ensures Sorted(cut.done, cut.defined + ConstantNames(k))
    ensures Sorted(site.Replacement(k), cut.Here() + ConstantNames(k))
    ensures AllOutputs(site.Replacement(k)) == site.Written(k)
  {
    Parts(cut, site);
    NewNames(cut, site, k);
    Unmade(cut, site, k);
    SortedWithMore(cut.done, cut.defined, ConstantNames(k));
    assert AllChainNames(site.Written(k), k, site.dql.outputs[2], site.ScaleName(), site.Out()) by {
      WrittenMade(k, site.ScaleName(), site.dql.outputs[2], site.Out());
    }
    MadeBesideConstants(site.Written(k), k, site.dql.outputs[2], site.ScaleName(), site.Out());
    ApartFromBoth(cut.Here(), ConstantNames(k), site.Written(k));
    assert site.X() in cut.Here();
    ChainSorted(k, site.X(), site.ScaleName(), site.dql.outputs[2], site.Out(), cut.Here() + ConstantNames(k));
  }

  lemma ThreeParts(done: seq<Node>, chain: seq<Node>, less: seq<Node>, defined: set<Name>, constants: set<Name>)
    requires Sorted(done, defined + constants) && Sorted(chain, defined + AllOutputs(done) + constants)
    ensures Sorted(done + chain + less, defined + constants)
            <==> Sorted(less, defined + AllOutputs(done) + constants + AllOutputs(chain))
    ensures AllOutputs(done + chain + less) == AllOutputs(done) + AllOutputs(chain) + AllOutputs(less)
  {
    SortedAppend(done + chain, less, defined + constants);
    SortedAppend(done, chain, defined + constants);
    OutputsAppend(done + chain, less);
    OutputsAppend(done, chain);
    assert defined + constants + AllOutputs(done) == defined + AllOutputs(done) + constants;
    assert defined + constants + (AllOutputs(done) + AllOutputs(chain))
           == defined + AllOutputs(done) + constants + AllOutputs(chain);
  }

  lemma NewListSorted(cut: Cut, site: Site, k: nat)
    requires cut.Holds(site, k)
    ensures Sorted(cut.After(site, k), cut.defined + ConstantNames(k)) <==> Sorted(cut.Less(site), Now(cut, site, k))
    ensures AllOutputs(cut.After(site, k)) == AllOutputs(cut.done) + site.Written(k) + AllOutputs(cut.Less(site))
  {
    StartSorted(cut, site, k);
    ThreeParts(cut.done, site.Replacement(k), cut.Less(site), cut.defined, ConstantNames(k));
  }

  // ---- exactly without stray readers ---------------------------------------------------------------

  lemma NotMade(made: set<Name>, k: nat, zeroPoint: Name, scale: Name, out: Name, g: Name)
    requires AllChainNames(made, k, zeroPoint, scale, out) && Original(g) && g != scale && g != out
    ensures g !in made && g !in ConstantNames(k)
  {
    assert g in made ==> ChainName(g, k, zeroPoint, scale, out);
  }

  lemma NotWritten(cut: Cut, site: Site, k: nat, g: Name)
    requires cut.Holds(site, k) && g in site.Gone()
    ensures g !in AllOutputs(cut.Less(site))
  {
    PairLater(cut, site, k);
    Parts(cut, site);
    QuantizedNames(cut, site, k);
    if g in AllOutputs(cut.Less(site)) {
      var w := WriterOf(cut.Less(site), g);
      DroppedKeeps(cut.rest, site.product, site.cast, w);
      NotYet(cut.rest, cut.Here() + Outputs(site.dql), w, g);
      OneWriter(cut.rest, cut.Here() + Outputs(site.dql), w, site.product, g);
    }
  }

  lemma GoneNow(cut: Cut, site: Site, k: nat, g: Name)
    requires cut.Holds(site, k) && g in site.Gone()
    ensures g !in Now(cut, site, k)
  {
    NewNames(cut, site, k);
    assert AllChainNames(site.Written(k), k, site.dql.outputs[2], site.ScaleName(), site.Out()) by {
      WrittenMade(k, site.ScaleName(), site.dql.outputs[2], site.Out());
    }
    NotMade(site.Written(k), k, site.dql.outputs[2], site.ScaleName(), site.Out(), g);
  }

  lemma StrayBreaks(cut: Cut, site: Site, k: nat, n: Node)
    requires cut.Holds(site, k) && Sorted(cut.Less(site), Now(cut, site, k))
    requires n in cut.rest && n != site.product && n != site.cast
    ensures !ReadsAny(n, site.Gone())
  {
    DroppedKeeps(cut.rest, site.product, site.cast, n);
    forall i | 0 <= i < |n.inputs| ensures n.inputs[i] !in site.Gone() {
      var g := n.inputs[i];
      ReadInTime(cut.Less(site), Now(cut, site, k), n, g);
      if g in site.Gone() {
        NotWritten(cut, site, k, g);
        GoneNow(cut, site, k, g);
      }
    }
  }

  lemma RestOriginal(cut: Cut, site: Site)
    requires AllOriginal(cut.Todo(site))
    ensures AllOriginal(cut.rest)
  {
    forall n | n in cut.rest ensures n in cut.Todo(site) {
    }
  }

  lemma PairOutputs(site: Site)
    requires site.Shaped()
    ensures Outputs(site.product) <= site.Gone() && site.cast.outputs == [site.Out()]
  {
  }

  lemma CleanSorted(cut: Cut, site: Site, k: nat)
    requires cut.Holds(site, k) && NoStrayReader(site, cut.rest)
    ensures Sorted(cut.Less(site), Now(cut, site, k))
  {
    PairLater(cut, site, k);
    Parts(cut, site);
    AlongsideHere(cut, site, k);
    PairOutputs(site);
    RestOriginal(cut, site);
    var was, now, gone := cut.Here() + Outputs(site.dql), Now(cut, site, k), site.Gone();
    RestSorted(cut.rest, site.product, site.cast, was, now, gone, site.Out());
  }

  /** The rewritten list is sorted exactly when nothing else read a name that goes away. */
  lemma SortedExactlyWithoutStrays(cut: Cut, site: Site, k: nat)
    requires cut.Holds(site, k)
    ensures Sorted(cut.After(site, k), cut.defined + ConstantNames(k)) <==> NoStrayReader(site, cut.rest)
  {
    NewListSorted(cut, site, k);
    if NoStrayReader(site, cut.rest) {
      CleanSorted(cut, site, k);
    }
    if Sorted(cut.Less(site), Now(cut, site, k)) {
      forall n | n in cut.rest && n != site.product && n != site.cast ensures !ReadsAny(n, site.Gone()) {
        StrayBreaks(cut, site, k, n);
      }
    }
  }
}
