/** Every dynamic product of a graph, rewritten in turn: the values of the original run survive the whole pass. */
module MatmulPass {
  import opened Common
  import opened Quantization
  import opened OnnxGraph
  import opened OnnxOrder
  import opened OnnxRun
  import opened Tensors
  import opened MatmulSite
  import opened DynamicMatmuls
  import opened MatmulNames
  import opened MatmulNext
  import opened MatmulValues

  /** A product quantises a tensor with an axis and an element other than zero, and its scale may reach that rank. */
  ghost predicate Live(n: Node, loose: Loose, was: Env) {
    n.op.DynamicQuantizeLinear? && |n.inputs| == 1 && |n.outputs| == 3 ==>
      && n.inputs[0] in was && |was[n.inputs[0]].dims| >= 1 && SomeNonzero(was[n.inputs[0]].data)
      && n.outputs[1] in loose && Reach(loose, was, n.inputs[0]) <= loose[n.outputs[1]]
  }

  ghost predicate AllLive(nodes: seq<Node>, loose: Loose, was: Env) {
    forall n :: n in nodes ==> Live(n, loose, was)
  }

  // ---- at one product ------------------------------------------------------------------------------

  /** A run that passes through the site, cut there. */
  ghost predicate Passes(m: Meaning, cut: Cut, site: Site, env: Env, e: Env, end: Env) {
    && cut.defined == env.Keys && Run(Onnx(m), cut.done, env) == Some(e) && e.Keys == cut.Here()
    && Runnable(site.dql, e.Keys) && Run(Onnx(m), cut.rest, After(Onnx(m), site.dql, e)) == Some(end)
    && Extends(env, e) && Extends(After(Onnx(m), site.dql, e), end)
  }

  lemma CutRun(m: Meaning, cut: Cut, site: Site, env: Env, end: Env) returns (e: Env)
    requires cut.defined == env.Keys && Run(Onnx(m), cut.Before(site), env) == Some(end)
    ensures Passes(m, cut, site, env, e, end)
  {
    var tail := cut.Todo(site);
    assert cut.Before(site) == cut.done + tail && tail[0] == site.dql && tail[1..] == cut.rest;
    RunAppend(Onnx(m), cut.done, tail, env);
    e := Run(Onnx(m), cut.done, env).value;
    RunDefines(Onnx(m), cut.done, env);
    RunExtends(Onnx(m), cut.done, env);
    RunExtends(Onnx(m), cut.rest, After(Onnx(m), site.dql, e));
  }

  /** The input of the product has the elements of the original run, and as many axes or more. */
  lemma InputKept(loose: Loose, was: Env, e: Env, site: Site)
    requires site.Shaped() && site.X() in e && Follows(loose, was, e) && Live(site.dql, loose, was)
    ensures e[site.X()].data == was[site.X()].data && 1 <= |e[site.X()].dims| <= Reach(loose, was, site.X())
  {
    assert AgreeAt(loose, site.X(), was[site.X()], e[site.X()]);
  }

  lemma FollowsEarlier(loose: Loose, was: Env, e: Env, end: Env)
    requires Follows(loose, was, end) && Extends(e, end)
    ensures Follows(loose, was, e)
  {
  }

  lemma SiteWeights(nodes: seq<Node>, table: Env, site: Site)
    requires SiteOf(nodes, table, site.dql) == Ok(site) && |site.product.inputs| == 4
    ensures site.product.inputs[1] in table && table[site.product.inputs[1]] == site.weights
    ensures site.product.inputs[3] in table && table[site.product.inputs[3]] == site.zero
  {
  }

  lemma AtCut(cut: Cut, site: Site, k: nat, table: Env, e: Env, loose: Loose, was: Env)
    requires cut.Holds(site, k) && Runnable(site.dql, e.Keys) && Follows(loose, was, e) && Live(site.dql, loose, was)
    requires Extends(table, e) && SiteOf(cut.Before(site), table, site.dql) == Ok(site)
    ensures AtSite(site, e)
  {
    InputKept(loose, was, e, site);
    NewNames(cut, site, k);
    SiteWeights(cut.Before(site), table, site);
  }

  lemma UnusedHere(cut: Cut, site: Site, k: nat, e: Env)
    requires cut.Holds(site, k) && e.Keys == cut.Here()
    ensures Unused(site, k, e)
  {
    Unmade(cut, site, k);
    ConstantKeys(k, site.weights, site.zero);
  }

  /** The original product gives its cast the value that the chain computes. */
  lemma CastValue(m: Meaning, site: Site, e: Env, end: Env)
    requires site.Shaped() && AtSite(site, e) && Extends(After(Onnx(m), site.dql, e), end)
    requires Computes(Onnx(m), site.product, end) && Computes(Onnx(m), site.cast, end)
    ensures site.Out() in end && end[site.Out()] == ProductOf(m, e[site.X()], site.weights, site.zero)
  {
    var value := ProductOf(m, e[site.X()], site.weights, site.zero);
    ProductReads(m, site, e);
    ArgsLater(site.product, After(Onnx(m), site.dql, e), end);
    assert end[site.product.outputs[0]] == value;
    assert Args(site.cast, end) == [value];
    MatMulApplied(m, value, value);
  }

  lemma ScaleValue(m: Meaning, site: Site, was: Env)
    requires site.Shaped() && Computes(Onnx(m), site.dql, was) && SomeNonzero(was[site.X()].data)
    ensures site.ScaleName() in was && was[site.ScaleName()] == Tensor([], [Scale(was[site.X()].data)])
  {
    assert Args(site.dql, was) == [was[site.X()]];
    assert site.dql.outputs[1] == site.ScaleName();
  }

  /** The chain leaves the second run at the values of the first. */
  lemma ChainFollows(m: Meaning, site: Site, k: nat, loose: Loose, was: Env, e: Env, end: Env, f: Env)
    requires site.Shaped() && AtSite(site, e) && Follows(loose, was, e) && Follows(loose, was, end)
    requires Live(site.dql, loose, was) && Computes(Onnx(m), site.dql, was)
    requires site.Out() in end && end[site.Out()] == ProductOf(m, e[site.X()], site.weights, site.zero)
    requires Extends(e, f) && f.Keys <= e.Keys + ConstantNames(k) + site.Written(k)
    requires site.ScaleName() in f && f[site.ScaleName()] == Unit(|e[site.X()].dims|, Scale(e[site.X()].data))
    requires site.Out() in f && f[site.Out()] == ProductOf(m, e[site.X()], site.weights, site.zero)
    requires forall n :: n in was && n in ConstantNames(k) + site.Written(k) ==>
               n == site.ScaleName() || n == site.Out()
    ensures Follows(loose, was, f)
  {
    InputKept(loose, was, e, site);
    ScaleValue(m, site, was);
    ScalePadded(|e[site.X()].dims|, Scale(e[site.X()].data));
    forall n | n in was && n in f ensures AgreeAt(loose, n, was[n], f[n]) {
      if n in e {
        assert AgreeAt(loose, n, was[n], e[n]);
      } else if n != site.ScaleName() {
        assert n == site.Out() && AgreeAt(loose, n, was[n], end[n]);
      }
    }
  }

  /** None of the names that the rewrite makes up has a value in the original run. */
  lemma NoneMade(was: Env, todo: seq<Node>, k: nat, zeroPoint: Name, scale: Name, out: Name, made: set<Name>)
    requires AllFresh(was.Keys, todo, k) && zeroPoint in AllOutputs(todo)
    requires AllChainNames(made, k, zeroPoint, scale, out)
    ensures forall n :: n in was && n in ConstantNames(k) + made ==> n == scale || n == out
  {
    forall n | n in was && n in ConstantNames(k) + made ensures n == scale || n == out {
      assert FreshName(n, todo, k);
      assert n in made ==> ChainName(n, k, zeroPoint, scale, out);
    }
  }

  lemma NoneMadeHere(cut: Cut, site: Site, k: nat, was: Env)
    requires site.Shaped() && AllFresh(was.Keys, cut.Todo(site), k)
    ensures forall n :: n in was && n in ConstantNames(k) + site.Written(k) ==> n == site.ScaleName() || n == site.Out()
  {
    OutputIn(cut.Todo(site), site.dql, site.dql.outputs[2]);
    assert AllChainNames(site.Written(k), k, site.dql.outputs[2], site.ScaleName(), site.Out()) by {
      WrittenMade(k, site.ScaleName(), site.dql.outputs[2], site.Out());
    }
    NoneMade(was, cut.Todo(site), k, site.dql.outputs[2], site.ScaleName(), site.Out(), site.Written(k));
  }

  // ---- the run of the new list ---------------------------------------------------------------------

  lemma DoneWithConstants(sem: Semantics, done: seq<Node>, env: Env, e: Env, extra: Env)
    requires Run(sem, done, env) == Some(e) && e.Keys !! extra.Keys
    ensures Run(sem, done, env + extra) == Some(e + extra)
  {
    forall i | 0 <= i < |done| ensures Equivalent(sem, done[i], done[i], e, extra) {
      SameAsItself(sem, done[i], e, extra);
    }
    ReplacedOneForOne(sem, done, done, env, extra);
  }

  lemma Joined(sem: Semantics, a: seq<Node>, b: seq<Node>, c: seq<Node>, env: Env, e: Env, f: Env)
    requires Run(sem, a, env) == Some(e) && Run(sem, b, e) == Some(f)
    ensures Run(sem, a + b + c, env) == Run(sem, c, f)
  {
    RunAppend(sem, a, b, env);
    RunAppend(sem, a + b, c, env);
  }

  lemma ExtendsFurther(a: Env, b: Env, c: Env)
    requires Extends(a, b) && Extends(b, c)
    ensures Extends(a, c)
  {
  }

  /** The names of the run after the chain. */
  lemma ChainKeys(site: Site, k: nat, e: Env, f: Env)
    requires site.Shaped() && Unused(site, k, e)
    requires var start := e + Constants(k, site.weights, site.zero);
             Extends(start, f) && f.Keys == start.Keys + site.Written(k)
    ensures Extends(e, f) && f.Keys == e.Keys + ConstantNames(k) + site.Written(k)
  {
    var extra := Constants(k, site.weights, site.zero);
    ConstantKeys(k, site.weights, site.zero);
    assert (e + extra).Keys == e.Keys + ConstantNames(k);
    ExtendsFurther(e, e + extra, f);
  }

  /** The run of the chain at the site, and that it follows the original run. */
  lemma ChainPart(m: Meaning, cut: Cut, site: Site, k: nat, table: Env, e: Env, end: Env, loose: Loose,
                  was: Env)
    returns (f: Env)
    requires cut.Holds(site, k) && e.Keys == cut.Here() && Runnable(site.dql, e.Keys) && Follows(loose, was, e)
    requires Extends(table, e) && SiteOf(cut.Before(site), table, site.dql) == Ok(site)
    requires Extends(After(Onnx(m), site.dql, e), end)
    requires Computes(Onnx(m), site.product, end) && Computes(Onnx(m), site.cast, end)
    requires Follows(loose, was, end) && Live(site.dql, loose, was) && Computes(Onnx(m), site.dql, was)
    requires AllFresh(was.Keys, cut.Todo(site), k)
    ensures Run(Onnx(m), site.Replacement(k), e + Constants(k, site.weights, site.zero)) == Some(f)
    ensures Follows(loose, was, f)
  {
    AtCut(cut, site, k, table, e, loose, was);
    UnusedHere(cut, site, k, e);
    CastValue(m, site, e, end);
    f := ReplacementRun(m, site, k, e);
    ChainKeys(site, k, e, f);
    NoneMadeHere(cut, site, k, was);
    ChainFollows(m, site, k, loose, was, e, end, f);
  }

  /** Up to the end of the chain the new list follows the original run. */
  lemma StartFollows(m: Meaning, cut: Cut, site: Site, k: nat, table: Env, env: Env, end: Env, loose: Loose,
                     was: Env)
    returns (f: Env)
    requires cut.Holds(site, k) && cut.defined == env.Keys && Run(Onnx(m), cut.Before(site), env) == Some(end)
    requires Extends(table, env) && SiteOf(cut.Before(site), table, site.dql) == Ok(site)
    requires Follows(loose, was, end) && Live(site.dql, loose, was) && Computes(Onnx(m), site.dql, was)
    requires AllFresh(was.Keys, cut.Todo(site), k)
    ensures Run(Onnx(m), cut.After(site, k), env + Constants(k, site.weights, site.zero))
            == Run(Onnx(m), cut.Less(site), f)
    ensures Follows(loose, was, f)
  {
    var extra := Constants(k, site.weights, site.zero);
    var e := CutRun(m, cut, site, env, end);
    ExtendsFurther(e, After(Onnx(m), site.dql, e), end);
    FollowsEarlier(loose, was, e, end);
    ExtendsFurther(table, env, e);
    RunComputes(Onnx(m), cut.Before(site), env, site.product);
    RunComputes(Onnx(m), cut.Before(site), env, site.cast);
    f := ChainPart(m, cut, site, k, table, e, end, loose, was);
    UnusedHere(cut, site, k, e);
    DoneWithConstants(Onnx(m), cut.done, env, e, extra);
    Joined(Onnx(m), cut.done, site.Replacement(k), cut.Less(site), env + extra, e + extra, f);
  }

  lemma NewListRuns(sem: Semantics, cut: Cut, site: Site, k: nat, env: Env)
    requires cut.Holds(site, k) && cut.defined == env.Keys && NoStrayReader(site, cut.rest)
    ensures Run(sem, cut.After(site, k), env + Constants(k, site.weights, site.zero)).Some?
  {
    var start := env + Constants(k, site.weights, site.zero);
    SortedExactlyWithoutStrays(cut, site, k);
    ConstantKeys(k, site.weights, site.zero);
    assert start.Keys == cut.defined + ConstantNames(k);
    RunsIffSorted(sem, cut.After(site, k), start);
  }

  lemma LessTolerate(sem: Semantics, cut: Cut, site: Site, loose: Loose, was: Env)
    requires AllTolerate(sem, cut.rest, loose, was) && AllLive(cut.rest, loose, was)
    ensures AllTolerate(sem, cut.Less(site), loose, was) && AllLive(cut.Less(site), loose, was)
  {
    forall n | n in cut.Less(site) ensures n in cut.rest {
      DroppedKeeps(cut.rest, site.product, site.cast, n);
    }
  }

  /** Replacing one dynamic product: the new list runs, and its run follows the original one. */
  lemma SiteKeepsValues(m: Meaning, cut: Cut, site: Site, k: nat, table: Env, env: Env, end: Env, loose: Loose,
                        was: Env)
    returns (after: Env)
    requires cut.Holds(site, k) && cut.defined == env.Keys && Run(Onnx(m), cut.Before(site), env) == Some(end)
    requires Extends(table, env) && SiteOf(cut.Before(site), table, site.dql) == Ok(site)
    requires NoStrayReader(site, cut.rest)
    requires Follows(loose, was, end) && Live(site.dql, loose, was) && Computes(Onnx(m), site.dql, was)
    requires AllFresh(was.Keys, cut.Todo(site), k) && AllTolerate(Onnx(m), cut.Less(site), loose, was)
    ensures Run(Onnx(m), cut.After(site, k), env + Constants(k, site.weights, site.zero)) == Some(after)
    ensures Follows(loose, was, after)
  {
    var f := StartFollows(m, cut, site, k, table, env, end, loose, was);
    NewListRuns(Onnx(m), cut, site, k, env);
    after := Run(Onnx(m), cut.Less(site), f).value;
    FollowsThrough(Onnx(m), cut.Less(site), loose, was, f);
  }

  // ---- the names that keep a value -----------------------------------------------------------------

  lemma {:induction false} DroppedOutputsKept(rest: seq<Node>, p: Node, c: Node)
    ensures AllOutputs(rest) <= AllOutputs(Dropped(rest, p, c)) + Outputs(p) + Outputs(c)
  {
    if rest != [] {
      DroppedOutputsKept(rest[1..], p, c);
      if rest[0] != p && rest[0] != c {
        assert Dropped(rest, p, c)[1..] == Dropped(rest[1..], p, c);
      }
    }
  }

  lemma NothingElseGone(done: set<Name>, first: set<Name>, rest: set<Name>, less: set<Name>, made: set<Name>,
                        gone: set<Name>, scale: Name, out: Name)
    requires first <= gone + {scale} && rest <= less + gone + {out} && scale in made && out in made
    ensures done + first + rest <= done + made + less + gone
  {
  }

  lemma RestKept(cut: Cut, site: Site)
    requires site.Shaped()
    ensures AllOutputs(cut.rest) <= AllOutputs(cut.Less(site)) + site.Gone() + {site.Out()}
  {
    DroppedOutputsKept(cut.rest, site.product, site.cast);
    PairOutputs(site);
    assert Outputs(site.cast) == {site.Out()};
  }

  lemma FirstKept(cut: Cut, site: Site, k: nat)
    requires cut.Holds(site, k)
    ensures Outputs(site.dql) <= site.Gone() + {site.ScaleName()}
    ensures site.ScaleName() in site.Written(k) && site.Out() in site.Written(k)
  {
    QuantizedNames(cut, site, k);
    WrittenHas(k, site.ScaleName(), site.dql.outputs[2], site.Out());
  }

  lemma OutputsKept(cut: Cut, site: Site, k: nat)
    requires cut.Holds(site, k)
    ensures AllOutputs(cut.Before(site)) <= AllOutputs(cut.After(site, k)) + site.Gone()
  {
    var done, first := AllOutputs(cut.done), Outputs(site.dql);
    var rest, less := AllOutputs(cut.rest), AllOutputs(cut.Less(site));
    Parts(cut, site);
    NewListSorted(cut, site, k);
    FirstKept(cut, site, k);
    RestKept(cut, site);
    NothingElseGone(done, first, rest, less, site.Written(k), site.Gone(), site.ScaleName(), site.Out());
  }

  lemma NamesKept(sem: Semantics, before: seq<Node>, after: seq<Node>, gone: set<Name>, env: Env, start: Env)
    requires Run(sem, before, env).Some? && Run(sem, after, start).Some? && env.Keys <= start.Keys
    requires AllOutputs(before) <= AllOutputs(after) + gone
    ensures Run(sem, before, env).value.Keys <= Run(sem, after, start).value.Keys + gone
  {
    RunDefines(sem, before, env);
    RunDefines(sem, after, start);
  }

  // ---- the whole pass ------------------------------------------------------------------------------

  /** What holds of a graph and its run before the products of `todo` are rewritten; `was` is the original run. */
  ghost predicate Before(m: Meaning, done: seq<Node>, todo: seq<Node>, inits: seq<Initializer>, k: nat, env: Env,
                         end: Env, loose: Loose, was: Env)
  {
    && Pending(done, todo, Table(inits), env.Keys, k) && Extends(Table(inits), env)
    && Run(Onnx(m), done + todo, env) == Some(end) && Follows(loose, was, end)
    && AllTolerate(Onnx(m), todo, loose, was) && AllLive(todo, loose, was) && AllFresh(was.Keys, todo, k)
  }

  lemma TableInside(inits: seq<Initializer>, k: nat, site: Site, env: Env)
    requires Centrable(site.weights, site.zero) && Extends(Table(inits), env) && ConstantNames(k) !! env.Keys
    ensures var added, grown := Constants(k, site.weights, site.zero), Table(inits + NewInitializers(k, site));
            && grown == Table(inits) + added && Extends(Table(inits), grown) && Extends(grown, env + added)
            && (env + added).Keys == env.Keys + ConstantNames(k)
  {
    TableGrows(inits, k, site);
    ConstantKeys(k, site.weights, site.zero);
  }

  lemma TodoTail(sem: Semantics, todo: seq<Node>, i: nat, k: nat, loose: Loose, was: Env)
    requires i < |todo| && AllTolerate(sem, todo, loose, was)
    requires AllLive(todo, loose, was) && AllFresh(was.Keys, todo, k)
    ensures AllTolerate(sem, todo[i + 1..], loose, was) && AllLive(todo[i + 1..], loose, was)
    ensures Computes(sem, todo[i], was) && Live(todo[i], loose, was) && AllFresh(was.Keys, [todo[i]] + todo[i + 1..], k)
  {
    TailOf(todo, i);
    forall n | n in todo[i + 1..] ensures n in todo {
    }
    AllFreshLater(was.Keys, todo, [todo[i]] + todo[i + 1..], k);
  }

  lemma LessFresh(cut: Cut, site: Site, k: nat, was: Env)
    requires cut.Holds(site, k) && AllFresh(was.Keys, cut.Todo(site), k)
    ensures AllFresh(was.Keys, cut.Less(site), k + 1)
  {
    LessOutputs(cut, site, k);
    AllFreshLater(was.Keys, cut.Todo(site), cut.Less(site), k);
  }

  /** One rewrite, and everything the next one needs. */
  lemma OneStep(m: Meaning, done: seq<Node>, todo: seq<Node>, inits: seq<Initializer>, k: nat, env: Env, end: Env,
                loose: Loose, was: Env, i: nat)
    returns (site: Site, before: seq<Node>, less: seq<Node>, after: Env)
    requires Before(m, done, todo, inits, k, env, end, loose, was) && i < |todo| && todo[i].op.DynamicQuantizeLinear?
    ensures site.Shaped() && less == Dropped(todo[i + 1..], site.product, site.cast)
    ensures GoneAt(done + todo, todo[i]) == site.Gone()
    ensures var next := inits + NewInitializers(k, site);
            && RewriteOne(done + todo, inits, todo[i], k) == Outcome(Rewrite(before + less, next), None)
            && Before(m, before, less, next, k + 1, env + Constants(k, site.weights, site.zero), after, loose, was)
            && Table(next) == Table(inits) + Constants(k, site.weights, site.zero) && Extends(Table(inits), Table(next))
    ensures GoneAll(done + todo, Quantizers(less)) == GoneAll(before + less, Quantizers(less))
    ensures end.Keys <= after.Keys + site.Gone()
  {
    var cut := CutAt(done, todo, env.Keys, i);
    site := OneRewrite(done, todo, inits, env.Keys, k, i);
    before, less := cut.done + site.Replacement(k), cut.Less(site);
    TodoTail(Onnx(m), todo, i, k, loose, was);
    LessTolerate(Onnx(m), cut, site, loose, was);
    LessFresh(cut, site, k, was);
    after := SiteKeepsValues(m, cut, site, k, Table(inits), env, end, loose, was);
    Unmade(cut, site, k);
    TableInside(inits, k, site, env);
    OutputsKept(cut, site, k);
    NamesKept(Onnx(m), cut.Before(site), cut.After(site, k), site.Gone(), env,
              env + Constants(k, site.weights, site.zero));
  }

  lemma ConstantsInside(env: Env, table: Env, added: Env, grown: Env, last: Env)
    requires Extends(table, env) && grown == table + added && Extends(grown, last)
    ensures env + added + last == env + last
  {
    forall n | n in added ensures n in last && last[n] == added[n] {
      assert n in grown;
    }
  }

  /**
   * The pass over every dynamic product: it finishes, the new list runs, every name is still written but those of
   * the integer products, and it has the value of the original run, a loose name up to leading axes of length one.
   */
  lemma {:induction false} PassFollows(m: Meaning, done: seq<Node>, todo: seq<Node>, inits: seq<Initializer>, k: nat,
                                       env: Env, end: Env, loose: Loose, was: Env)
    returns (result: Rewrite, after: Env)
    requires Before(m, done, todo, inits, k, env, end, loose, was)
    ensures RewriteAll(done + todo, inits, Quantizers(todo), k) == Outcome(result, None)
    ensures Run(Onnx(m), result.nodes, env + Table(result.inits)) == Some(after) && Follows(loose, was, after)
    ensures end.Keys <= after.Keys + GoneAll(done + todo, Quantizers(todo))
    ensures Extends(Table(inits), Table(result.inits))
    decreases |todo|
  {
    if NoQuantizer(todo) {
      NothingToQuantize(todo);
      result, after := Rewrite(done + todo, inits), end;
      assert env + Table(inits) == env;
    } else {
      var i := FirstQuantizer(todo);
      var site, before, less, mid := OneStep(m, done, todo, inits, k, env, end, loose, was, i);
      var next, added := inits + NewInitializers(k, site), Constants(k, site.weights, site.zero);
      SnapshotTail(todo, i, site.product, site.cast);
      RewriteAllStep(done + todo, inits, todo[i], Quantizers(less), k, Rewrite(before + less, next));
      result, after := PassFollows(m, before, less, next, k + 1, env + added, mid, loose, was);
      ConstantsInside(env, Table(inits), added, Table(next), Table(result.inits));
      ExtendsFurther(Table(inits), Table(next), Table(result.inits));
      assert ([todo[i]] + Quantizers(less))[1..] == Quantizers(less);
    }
  }

  /** A graph and its run, as the pass finds them. */
  ghost predicate Started(m: Meaning, nodes: seq<Node>, inits: seq<Initializer>, env: Env, end: Env) {
    && Pending([], nodes, Table(inits), env.Keys, 0)
    && Extends(Table(inits), env) && Run(Onnx(m), nodes, env) == Some(end)
  }

  /** Every name but those that went away keeps its value, a loose one up to leading axes. */
  ghost predicate Keeps(loose: Loose, gone: set<Name>, was: Env, now: Env) {
    forall n :: n in was && n !in gone ==> n in now && AgreeAt(loose, n, was[n], now[n])
  }

  /** The pass keeps the values of a graph in which every node tolerates the axes that a scale may gain. */
  lemma PassKeepsValues(m: Meaning, nodes: seq<Node>, inits: seq<Initializer>, env: Env, end: Env, loose: Loose)
    returns (result: Rewrite, after: Env)
    requires Started(m, nodes, inits, env, end) && Follows(loose, end, end) && AllLive(nodes, loose, end)
    requires forall n :: n in nodes ==> Tolerates(Onnx(m), n, loose, end)
    ensures RewriteAll(nodes, inits, Quantizers(nodes), 0) == Outcome(result, None)
    ensures Run(Onnx(m), result.nodes, env + Table(result.inits)) == Some(after)
    ensures Keeps(loose, GoneAll(nodes, Quantizers(nodes)), end, after) && Extends(Table(inits), Table(result.inits))
  {
    assert [] + nodes == nodes;
    forall n | n in nodes ensures Computes(Onnx(m), n, end) {
      RunComputes(Onnx(m), nodes, env, n);
    }
    RunDefines(Onnx(m), nodes, env);
    result, after := PassFollows(m, [], nodes, inits, 0, env, end, loose, end);
  }
}
