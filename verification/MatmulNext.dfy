/** From one rewrite to the next: by names alone, the pass over all dynamic products finishes with a sorted list. */
module MatmulNext {
  import opened Common
  import opened OnnxGraph
  import opened OnnxOrder
  import opened OnnxRun
  import opened QuantizeChain
  import opened MatmulSite
  import opened DynamicMatmuls
  import opened MatmulNames

  ghost predicate AllConvertible(nodes: seq<Node>, todo: seq<Node>, table: Env) {
    forall d :: d in todo && d.op.DynamicQuantizeLinear? ==> Convertible(nodes, table, d)
  }

  /** What holds of the names of a graph before the products of `todo` are rewritten. */
  ghost predicate Pending(done: seq<Node>, todo: seq<Node>, table: Env, defined: set<Name>, k: nat) {
    && Sorted(done + todo, defined) && table.Keys <= defined && AllConvertible(done + todo, todo, table)
    && AllOriginal(todo) && AllFresh(defined + AllOutputs(done + todo), todo, k)
  }

  // ---- the next product ----------------------------------------------------------------------------

  function CutAt(done: seq<Node>, todo: seq<Node>, defined: set<Name>, i: nat): (cut: Cut)
    requires i < |todo|
  {
    Cut(done + todo[..i], todo[i + 1..], defined)
  }

  lemma FreshLater(n: Name, todo: seq<Node>, less: seq<Node>, k: nat)
    requires FreshName(n, todo, k) && AllOutputs(less) <= AllOutputs(todo)
    ensures FreshName(n, less, k) && FreshName(n, less, k + 1)
  {
  }

  lemma AllFreshLater(names: set<Name>, todo: seq<Node>, less: seq<Node>, k: nat)
    requires AllFresh(names, todo, k) && AllOutputs(less) <= AllOutputs(todo)
    ensures AllFresh(names, less, k) && AllFresh(names, less, k + 1)
  {
    forall n | n in names ensures FreshName(n, less, k) && FreshName(n, less, k + 1) {
      FreshLater(n, todo, less, k);
    }
  }

  lemma TailOf(todo: seq<Node>, i: nat)
    requires i < |todo|
    ensures todo == todo[..i] + ([todo[i]] + todo[i + 1..]) && AllOutputs([todo[i]] + todo[i + 1..]) <= AllOutputs(todo)
    ensures forall n :: n in [todo[i]] + todo[i + 1..] ==> n in todo
  {
    CutBehind(todo, i);
    BehindOutputs(todo[..i], [todo[i]] + todo[i + 1..]);
  }

  lemma CutBehind(todo: seq<Node>, i: nat)
    requires i < |todo|
    ensures todo == todo[..i] + ([todo[i]] + todo[i + 1..])
  {
  }

  lemma BehindOutputs(front: seq<Node>, tail: seq<Node>)
    ensures AllOutputs(tail) <= AllOutputs(front + tail) && forall n :: n in tail ==> n in front + tail
  {
    OutputsAppend(front, tail);
  }

  lemma CutWhole(done: seq<Node>, todo: seq<Node>, i: nat)
    requires i < |todo|
    ensures done + todo[..i] + [todo[i]] + todo[i + 1..] == done + todo
  {
  }

  lemma NoStrayIn(nodes: seq<Node>, table: Env, site: Site, rest: seq<Node>)
    requires Convertible(nodes, table, site.dql) && SiteOf(nodes, table, site.dql) == Ok(site)
    requires forall n :: n in rest ==> n in nodes
    ensures NoStrayReader(site, rest)
  {
  }

  lemma NextSite(done: seq<Node>, todo: seq<Node>, table: Env, defined: set<Name>, k: nat, i: nat) returns (site: Site)
    requires Pending(done, todo, table, defined, k) && i < |todo| && todo[i].op.DynamicQuantizeLinear?
    ensures SiteOf(done + todo, table, todo[i]) == Ok(site) && site.dql == todo[i]
    ensures CutAt(done, todo, defined, i).Before(site) == done + todo && CutAt(done, todo, defined, i).Holds(site, k)
    ensures NoStrayReader(site, todo[i + 1..])
  {
    var nodes, cut := done + todo, CutAt(done, todo, defined, i);
    assert todo[i] in todo;
    site := SiteOf(nodes, table, todo[i]).value;
    SiteFacts(nodes, table, todo[i]);
    TailOf(todo, i);
    CutWhole(done, todo, i);
    AllFreshLater(defined + AllOutputs(nodes), todo, cut.Todo(site), k);
    NoStrayIn(nodes, table, site, cut.rest);
  }

  // ---- the rewritten list --------------------------------------------------------------------------

  /** One rewrite takes the three nodes out and puts the chain in. */
  lemma NextRewritten(cut: Cut, site: Site, k: nat, inits: seq<Initializer>)
    requires cut.Holds(site, k) && SiteOf(cut.Before(site), Table(inits), site.dql) == Ok(site)
    ensures RewriteOne(cut.Before(site), inits, site.dql, k)
            == Outcome(Rewrite(cut.After(site, k), inits + NewInitializers(k, site)), None)
  {
    NotInDone(cut, site, k);
    PairLater(cut, site, k);
    Parts(cut, site);
    SpliceOut(cut.done, cut.rest, cut.Here() + Outputs(site.dql), site.dql, site.product, site.cast,
              site.Replacement(k));
  }

  lemma TableGrows(inits: seq<Initializer>, k: nat, site: Site)
    requires Centrable(site.weights, site.zero)
    ensures Table(inits + NewInitializers(k, site)) == Table(inits) + Constants(k, site.weights, site.zero)
  {
    var added := NewInitializers(k, site);
    var all := inits + added;
    assert all[..|all| - 1] == inits + [added[0]];
    assert (inits + [added[0]])[..|inits|] == inits;
  }

  lemma KeysGrow(defined: set<Name>, inits: seq<Initializer>, k: nat, site: Site)
    requires Centrable(site.weights, site.zero) && Table(inits).Keys <= defined
    ensures defined + Table(inits + NewInitializers(k, site)).Keys == defined + ConstantNames(k)
  {
    TableGrows(inits, k, site);
    ConstantKeys(k, site.weights, site.zero);
  }

  /** What one rewrite makes of a sorted list is sorted exactly when nothing else read a name that goes away. */
  lemma RewriteSortedExactly(cut: Cut, site: Site, k: nat, inits: seq<Initializer>)
    requires cut.Holds(site, k) && SiteOf(cut.Before(site), Table(inits), site.dql) == Ok(site)
    requires Table(inits).Keys <= cut.defined
    ensures var r := RewriteOne(cut.Before(site), inits, site.dql, k);
            && r.failure.None?
            && (Sorted(r.model.nodes, cut.defined + Table(r.model.inits).Keys) <==> NoStrayReader(site, cut.rest))
  {
    NextRewritten(cut, site, k, inits);
    SortedExactlyWithoutStrays(cut, site, k);
    KeysGrow(cut.defined, inits, k, site);
  }

  // ---- the products still to come ------------------------------------------------------------------

  /** The chain does not read what another product keeps to itself. */
  lemma ReaderStays(nodes: seq<Node>, after: seq<Node>, chain: seq<Node>, dql: Node, x: Name, scale: Name, name: Name,
                    reader: Node)
    requires OnlyReader(nodes, name, reader) && dql in nodes && x in dql.inputs && dql != reader
    requires Original(name) && name != scale && AllChainNodes(chain, x, scale)
    requires forall n :: n in after ==> n in nodes || n in chain
    ensures OnlyReader(after, name, reader)
  {
  }

  lemma SiteStays(nodes: seq<Node>, after: seq<Node>, table: Env, grown: Env, d: Node)
    requires Convertible(nodes, table, d) && Extends(table, grown)
    requires var other := SiteOf(nodes, table, d).value;
             && other.product in after && other.cast in after
             && OnlyReader(after, d.outputs[0], other.product)
             && OnlyReader(after, d.outputs[2], other.product)
             && OnlyReader(after, other.product.outputs[0], other.cast)
    ensures Convertible(after, grown, d) && SiteOf(after, grown, d) == SiteOf(nodes, table, d)
  {
    var other := SiteOf(nodes, table, d).value;
    SiteFacts(nodes, table, d);
    OnlyProductFound(after, d.outputs[0], other.product);
    OnlyCastFound(after, other.product.outputs[0], other.cast);
  }

  /** Two products of one graph share no node and no name. */
  lemma SitesApart(nodes: seq<Node>, table: Env, defined: set<Name>, a: Node, b: Node)
    requires Sorted(nodes, defined) && a in nodes && b in nodes && a != b
    requires Convertible(nodes, table, a) && Convertible(nodes, table, b)
    ensures var s, t := SiteOf(nodes, table, a).value, SiteOf(nodes, table, b).value;
            && s.product != t.product && s.cast != t.cast && s.ScaleName() !in t.Gone()
  {
    SiteFacts(nodes, table, a);
    SiteFacts(nodes, table, b);
    var s, t := SiteOf(nodes, table, a).value, SiteOf(nodes, table, b).value;
    if s.product == t.product {
      OneWriter(nodes, defined, a, b, a.outputs[0]);
    }
    if s.cast == t.cast {
      OneWriter(nodes, defined, s.product, t.product, s.product.outputs[0]);
    }
    if s.ScaleName() in t.Gone() {
      OneWriter(nodes, defined, a, if s.ScaleName() == t.product.outputs[0] then t.product else b, s.ScaleName());
    }
  }

  /** The list after one rewrite: nodes of the old list without the three, and nodes of the chain. */
  ghost predicate Turned(nodes: seq<Node>, after: seq<Node>, site: Site, chain: seq<Node>) {
    && (forall n :: n in after ==> n in nodes || n in chain)
    && (forall n :: n in nodes && n != site.dql && n != site.product && n != site.cast ==> n in after)
  }

  lemma NextTurned(cut: Cut, site: Site, chain: seq<Node>)
    ensures Turned(cut.Before(site), cut.done + chain + cut.Less(site), site, chain)
  {
    forall n ensures n in cut.Less(site) <==> n in cut.rest && n != site.product && n != site.cast {
      DroppedKeeps(cut.rest, site.product, site.cast, n);
    }
  }

  lemma GoneOriginal(site: Site, todo: seq<Node>)
    requires site.Shaped() && AllOriginal(todo) && site.dql in todo && site.product in todo
    ensures forall n :: n in site.Gone() ==> Original(n)
  {
  }

  /** The names another product keeps to itself are names of the model. */
  lemma OtherOriginal(cut: Cut, site: Site, table: Env, d: Node)
    requires Sorted(cut.Before(site), cut.defined) && AllOriginal(cut.Todo(site))
    requires d in cut.rest && Convertible(cut.Before(site), table, d)
    ensures forall n :: n in SiteOf(cut.Before(site), table, d).value.Gone() ==> Original(n)
  {
    var nodes, todo := cut.Before(site), cut.Todo(site);
    SiteFacts(nodes, table, d);
    var other := SiteOf(nodes, table, d).value;
    assert nodes == cut.done + todo && d in todo;
    assert other.product in todo by {
      ReaderLater(cut.done, todo, cut.defined, d, other.product, d.outputs[0]);
    }
    GoneOriginal(other, todo);
  }

  lemma OtherSiteStays(nodes: seq<Node>, table: Env, grown: Env, defined: set<Name>, site: Site, d: Node,
                       after: seq<Node>, chain: seq<Node>)
    requires Sorted(nodes, defined) && site.dql in nodes && d in nodes && d != site.dql
    requires Convertible(nodes, table, site.dql)
    requires SiteOf(nodes, table, site.dql) == Ok(site) && Convertible(nodes, table, d)
    requires forall n :: n in SiteOf(nodes, table, d).value.Gone() ==> Original(n)
    requires Turned(nodes, after, site, chain)
    requires AllChainNodes(chain, site.X(), site.ScaleName()) && Extends(table, grown)
    ensures Convertible(after, grown, d) && SiteOf(after, grown, d) == SiteOf(nodes, table, d)
  {
    var other := SiteOf(nodes, table, d).value;
    SiteFacts(nodes, table, d);
    SitesApart(nodes, table, defined, site.dql, d);
    ReaderStays(nodes, after, chain, site.dql, site.X(), site.ScaleName(), d.outputs[0], other.product);
    ReaderStays(nodes, after, chain, site.dql, site.X(), site.ScaleName(), d.outputs[2], other.product);
    ReaderStays(nodes, after, chain, site.dql, site.X(), site.ScaleName(), other.product.outputs[0], other.cast);
    SiteStays(nodes, after, table, grown, d);
  }

  // ---- the names that go away ----------------------------------------------------------------------

  /** The names that the pass stops writing: quantised values, zero points and integer products. */
  function GoneAt(nodes: seq<Node>, dql: Node): (s: set<Name>) {
    if |dql.outputs| != 3 then {}
    else
      var p := FindProduct(nodes, dql.outputs[0]);
      {dql.outputs[0], dql.outputs[2]} + if p.Some? then Outputs(p.value) else {}
  }

  function GoneAll(nodes: seq<Node>, dqls: seq<Node>): (s: set<Name>) {
    if dqls == [] then {} else GoneAt(nodes, dqls[0]) + GoneAll(nodes, dqls[1..])
  }

  lemma GoneAtSite(nodes: seq<Node>, table: Env, d: Node)
    requires Convertible(nodes, table, d)
    ensures GoneAt(nodes, d) == SiteOf(nodes, table, d).value.Gone()
  {
  }

  /** The other products are as convertible as before, and the same names will go. */
  ghost predicate Untouched(nodes: seq<Node>, after: seq<Node>, rest: seq<Node>, grown: Env) {
    forall d :: d in rest && d.op.DynamicQuantizeLinear? ==>
      Convertible(after, grown, d) && GoneAt(after, d) == GoneAt(nodes, d)
  }

  lemma OtherConvertible(cut: Cut, site: Site, k: nat, table: Env, grown: Env, after: seq<Node>, chain: seq<Node>,
                         d: Node)
    requires cut.Holds(site, k) && Convertible(cut.Before(site), table, site.dql)
    requires SiteOf(cut.Before(site), table, site.dql) == Ok(site)
    requires Turned(cut.Before(site), after, site, chain)
    requires AllChainNodes(chain, site.X(), site.ScaleName()) && Extends(table, grown)
    requires d in cut.rest && Convertible(cut.Before(site), table, d)
    ensures Convertible(after, grown, d) && GoneAt(after, d) == GoneAt(cut.Before(site), d)
  {
    var nodes := cut.Before(site);
    Parts(cut, site);
    if d == site.dql {
      NotYet(cut.rest, cut.Here() + Outputs(site.dql), d, d.outputs[0]);
    }
    OtherOriginal(cut, site, table, d);
    OtherSiteStays(nodes, table, grown, cut.defined, site, d, after, chain);
    GoneAtSite(nodes, table, d);
    GoneAtSite(after, grown, d);
  }

  lemma NextConvertible(cut: Cut, site: Site, k: nat, table: Env, grown: Env)
    requires cut.Holds(site, k) && Convertible(cut.Before(site), table, site.dql)
    requires SiteOf(cut.Before(site), table, site.dql) == Ok(site)
    requires AllConvertible(cut.Before(site), cut.rest, table) && Extends(table, grown)
    ensures Untouched(cut.Before(site), cut.After(site, k), cut.rest, grown)
  {
    var chain, after := site.Replacement(k), cut.After(site, k);
    ChainIsChainNodes(k, site.X(), site.ScaleName(), site.dql.outputs[2], site.Out());
    NextTurned(cut, site, chain);
    forall d | d in cut.rest && d.op.DynamicQuantizeLinear?
      ensures Convertible(after, grown, d) && GoneAt(after, d) == GoneAt(cut.Before(site), d)
    {
      OtherConvertible(cut, site, k, table, grown, after, chain, d);
    }
  }

  // ---- fresh names ---------------------------------------------------------------------------------

  lemma MadeIsFresh(n: Name, k: nat, zeroPoint: Name, scale: Name, out: Name, less: seq<Node>)
    requires ChainName(n, k, zeroPoint, scale, out) && Original(scale)
    requires Original(out) && zeroPoint !in AllOutputs(less)
    ensures FreshName(n, less, k + 1)
  {
  }

  lemma FreshAfter(names: set<Name>, made: set<Name>, todo: seq<Node>, less: seq<Node>, k: nat, zeroPoint: Name,
                   scale: Name, out: Name)
    requires AllFresh(names, todo, k) && AllOutputs(less) <= AllOutputs(todo)
    requires AllChainNames(made, k, zeroPoint, scale, out) && Original(scale)
    requires Original(out) && zeroPoint !in AllOutputs(less)
    ensures AllFresh(names + ConstantNames(k) + made, less, k + 1)
  {
    forall n | n in names + ConstantNames(k) + made ensures FreshName(n, less, k + 1) {
      if n in names {
        FreshLater(n, todo, less, k);
      } else if n in made {
        MadeIsFresh(n, k, zeroPoint, scale, out, less);
      }
    }
  }

  lemma LessOutputs(cut: Cut, site: Site, k: nat)
    requires cut.Holds(site, k)
    ensures AllOutputs(cut.Less(site)) <= AllOutputs(cut.rest) <= AllOutputs(cut.Todo(site))
    ensures AllOutputs(cut.Less(site)) <= AllOutputs(cut.Before(site))
    ensures site.dql.outputs[2] !in AllOutputs(cut.Less(site))
  {
    DroppedOutputs(cut.rest, site.product, site.cast);
    assert cut.Todo(site)[1..] == cut.rest;
    Parts(cut, site);
    NotWritten(cut, site, k, site.dql.outputs[2]);
  }

  lemma NewListNames(cut: Cut, site: Site, k: nat)
    requires cut.Holds(site, k)
    ensures cut.defined + ConstantNames(k) + AllOutputs(cut.After(site, k))
            <= cut.defined + AllOutputs(cut.Before(site)) + ConstantNames(k) + site.Written(k)
  {
    NewListSorted(cut, site, k);
    LessOutputs(cut, site, k);
    Parts(cut, site);
  }

  lemma WrittenFresh(cut: Cut, site: Site, k: nat)
    requires cut.Holds(site, k)
    ensures AllFresh(cut.defined + AllOutputs(cut.Before(site)) + ConstantNames(k) + site.Written(k), cut.Less(site),
                     k + 1)
  {
    var before, made := cut.defined + AllOutputs(cut.Before(site)), site.Written(k);
    OriginalNames(cut, site, k);
    LessOutputs(cut, site, k);
    assert AllChainNames(made, k, site.dql.outputs[2], site.ScaleName(), site.Out()) by {
      WrittenMade(k, site.ScaleName(), site.dql.outputs[2], site.Out());
    }
    FreshAfter(before, made, cut.Todo(site), cut.Less(site), k, site.dql.outputs[2], site.ScaleName(), site.Out());
  }

  /** Nothing that the next rewrites will make up is in the new list. */
  lemma NextFresh(cut: Cut, site: Site, k: nat)
    requires cut.Holds(site, k)
    ensures AllFresh(cut.defined + ConstantNames(k) + AllOutputs(cut.After(site, k)), cut.Less(site), k + 1)
  {
    NewListNames(cut, site, k);
    WrittenFresh(cut, site, k);
  }

  lemma LessOriginal(cut: Cut, site: Site)
    requires AllOriginal(cut.Todo(site))
    ensures AllOriginal(cut.Less(site)) && forall n :: n in cut.Less(site) ==> n in cut.rest
  {
    forall n | n in cut.Less(site) ensures n in cut.rest && n in cut.Todo(site) {
      DroppedKeeps(cut.rest, site.product, site.cast, n);
    }
  }

  /** After one rewrite the graph is ready for the next. */
  lemma NextPending(cut: Cut, site: Site, k: nat, inits: seq<Initializer>)
    requires cut.Holds(site, k) && NoStrayReader(site, cut.rest) && Table(inits).Keys <= cut.defined
    requires Convertible(cut.Before(site), Table(inits), site.dql)
    requires SiteOf(cut.Before(site), Table(inits), site.dql) == Ok(site)
    requires AllConvertible(cut.Before(site), cut.rest, Table(inits))
    ensures var grown := Table(inits + NewInitializers(k, site));
            && Pending(cut.done + site.Replacement(k), cut.Less(site), grown, cut.defined + ConstantNames(k), k + 1)
            && Untouched(cut.Before(site), cut.After(site, k), cut.rest, grown)
  {
    var grown := Table(inits + NewInitializers(k, site));
    TableGrows(inits, k, site);
    assert Extends(Table(inits), grown) by {
      Unmade(cut, site, k);
    }
    SortedExactlyWithoutStrays(cut, site, k);
    NextConvertible(cut, site, k, Table(inits), grown);
    NextFresh(cut, site, k);
    LessOriginal(cut, site);
  }

  // ---- snapshots -----------------------------------------------------------------------------------

  lemma {:induction false} QuantizersAppend(a: seq<Node>, b: seq<Node>)
    ensures Quantizers(a + b) == Quantizers(a) + Quantizers(b)
  {
    if a == [] {
      assert a + b == b;
    } else {
      assert (a + b)[0] == a[0] && (a + b)[1..] == a[1..] + b;
      QuantizersAppend(a[1..], b);
    }
  }

  predicate NoQuantizer(nodes: seq<Node>) {
    forall i :: 0 <= i < |nodes| ==> !nodes[i].op.DynamicQuantizeLinear?
  }

  lemma {:induction false} NothingToQuantize(nodes: seq<Node>)
    requires NoQuantizer(nodes)
    ensures Quantizers(nodes) == []
  {
    if nodes != [] {
      NothingToQuantize(nodes[1..]);
    }
  }

  lemma {:induction false} QuantizersDropped(rest: seq<Node>, p: Node, c: Node)
    requires !p.op.DynamicQuantizeLinear? && !c.op.DynamicQuantizeLinear?
    ensures Quantizers(Dropped(rest, p, c)) == Quantizers(rest)
  {
    if rest != [] {
      QuantizersDropped(rest[1..], p, c);
      if rest[0] != p && rest[0] != c {
        assert Dropped(rest, p, c)[1..] == Dropped(rest[1..], p, c);
      }
    }
  }

  lemma {:induction false} QuantizersAre(nodes: seq<Node>, n: Node)
    ensures n in Quantizers(nodes) <==> n in nodes && n.op.DynamicQuantizeLinear?
  {
    if nodes != [] {
      QuantizersAre(nodes[1..], n);
    }
  }

  lemma FirstQuantizer(todo: seq<Node>) returns (i: nat)
    requires !NoQuantizer(todo)
    ensures i < |todo| && todo[i].op.DynamicQuantizeLinear? && NoQuantizer(todo[..i])
  {
    i := 0;
    while !todo[i].op.DynamicQuantizeLinear?
      invariant i < |todo| && NoQuantizer(todo[..i]) && !NoQuantizer(todo[i..])
      decreases |todo| - i
    {
      i := i + 1;
    }
  }

  lemma SnapshotOf(pre: seq<Node>, dql: Node, rest: seq<Node>)
    requires NoQuantizer(pre) && dql.op.DynamicQuantizeLinear?
    ensures Quantizers(pre + ([dql] + rest)) == [dql] + Quantizers(rest)
  {
    assert ([dql] + rest)[1..] == rest;
    QuantizersAppend(pre, [dql] + rest);
    NothingToQuantize(pre);
  }

  lemma SnapshotTail(todo: seq<Node>, i: nat, p: Node, c: Node)
    requires i < |todo| && NoQuantizer(todo[..i]) && todo[i].op.DynamicQuantizeLinear?
    requires !p.op.DynamicQuantizeLinear? && !c.op.DynamicQuantizeLinear?
    ensures Quantizers(todo) == [todo[i]] + Quantizers(Dropped(todo[i + 1..], p, c))
    ensures |Dropped(todo[i + 1..], p, c)| < |todo|
  {
    TailOf(todo, i);
    SnapshotOf(todo[..i], todo[i], todo[i + 1..]);
    QuantizersDropped(todo[i + 1..], p, c);
    DroppedLength(todo[i + 1..], p, c);
  }

  lemma {:induction false} GoneStays(nodes: seq<Node>, after: seq<Node>, dqls: seq<Node>)
    requires forall d :: d in dqls ==> GoneAt(nodes, d) == GoneAt(after, d)
    ensures GoneAll(nodes, dqls) == GoneAll(after, dqls)
  {
    if dqls != [] {
      GoneStays(nodes, after, dqls[1..]);
    }
  }

  lemma GoneTail(nodes: seq<Node>, after: seq<Node>, rest: seq<Node>, less: seq<Node>, grown: Env)
    requires Untouched(nodes, after, rest, grown) && forall n :: n in less ==> n in rest
    ensures GoneAll(nodes, Quantizers(less)) == GoneAll(after, Quantizers(less))
  {
    forall d | d in Quantizers(less) ensures GoneAt(nodes, d) == GoneAt(after, d) {
      QuantizersAre(less, d);
    }
    GoneStays(nodes, after, Quantizers(less));
  }

  // ---- the whole pass ------------------------------------------------------------------------------

  /** One rewrite of a pending graph, and the pending graph that it leaves. */
  lemma OneRewrite(done: seq<Node>, todo: seq<Node>, inits: seq<Initializer>, defined: set<Name>, k: nat,
                   i: nat)
    returns (site: Site)
    requires Pending(done, todo, Table(inits), defined, k) && i < |todo| && todo[i].op.DynamicQuantizeLinear?
    ensures site.Shaped()
    ensures var cut, next := CutAt(done, todo, defined, i), inits + NewInitializers(k, site);
            && cut.Before(site) == done + todo && cut.Holds(site, k)
            && site.dql == todo[i] && NoStrayReader(site, cut.rest)
            && SiteOf(done + todo, Table(inits), todo[i]) == Ok(site) && GoneAt(done + todo, todo[i]) == site.Gone()
            && RewriteOne(done + todo, inits, todo[i], k) == Outcome(Rewrite(cut.After(site, k), next), None)
            && Pending(cut.done + site.Replacement(k), cut.Less(site), Table(next), defined + ConstantNames(k), k + 1)
            && GoneAll(done + todo, Quantizers(cut.Less(site)))
               == GoneAll(cut.After(site, k), Quantizers(cut.Less(site)))
  {
    var nodes, cut := done + todo, CutAt(done, todo, defined, i);
    site := NextSite(done, todo, Table(inits), defined, k, i);
    NextRewritten(cut, site, k, inits);
    assert todo[i] in todo && forall n :: n in cut.rest ==> n in todo;
    NextPending(cut, site, k, inits);
    GoneAtSite(nodes, Table(inits), todo[i]);
    LessOriginal(cut, site);
    GoneTail(nodes, cut.After(site, k), cut.rest, cut.Less(site), Table(inits + NewInitializers(k, site)));
  }

  lemma RewriteAllStep(nodes: seq<Node>, inits: seq<Initializer>, dql: Node, dqls: seq<Node>, k: nat, next: Rewrite)
    requires RewriteOne(nodes, inits, dql, k) == Outcome(next, None)
    ensures RewriteAll(nodes, inits, [dql] + dqls, k) == RewriteAll(next.nodes, next.inits, dqls, k + 1)
  {
    assert ([dql] + dqls)[1..] == dqls;
  }

  lemma DefinedWith(defined: set<Name>, inits: seq<Initializer>, k: nat, site: Site, last: set<Name>)
    requires Centrable(site.weights, site.zero) && Table(inits + NewInitializers(k, site)).Keys <= last
    ensures Table(inits).Keys <= last && defined + ConstantNames(k) + last == defined + last
  {
    TableGrows(inits, k, site);
  }

  /** Whatever its values are, a pending graph is rewritten to the end, and the new list is sorted. */
  lemma {:induction false} PassKeepsOrder(done: seq<Node>, todo: seq<Node>, inits: seq<Initializer>,
                                          defined: set<Name>, k: nat)
    returns (result: Rewrite)
    requires Pending(done, todo, Table(inits), defined, k)
    ensures RewriteAll(done + todo, inits, Quantizers(todo), k) == Outcome(result, None)
    ensures Sorted(result.nodes, defined + Table(result.inits).Keys)
    ensures Table(inits).Keys <= Table(result.inits).Keys
    decreases |todo|
  {
    if NoQuantizer(todo) {
      NothingToQuantize(todo);
      result := Rewrite(done + todo, inits);
      assert defined + Table(inits).Keys == defined;
    } else {
      var i := FirstQuantizer(todo);
      var site := OneRewrite(done, todo, inits, defined, k, i);
      var cut := CutAt(done, todo, defined, i);
      var before, less, next := cut.done + site.Replacement(k), cut.Less(site), inits + NewInitializers(k, site);
      SnapshotTail(todo, i, site.product, site.cast);
      RewriteAllStep(done + todo, inits, todo[i], Quantizers(less), k, Rewrite(before + less, next));
      result := PassKeepsOrder(before, less, next, defined + ConstantNames(k), k + 1);
      DefinedWith(defined, inits, k, site, Table(result.inits).Keys);
    }
  }
}
