/** When the memo is invisible: an evaluation that starts from a memo against the same evaluation without one. */
module Transparency {
  import opened Collections
  import opened Compositionality
  import opened Denotation
  import opened Diagnostics
  import opened Documents
  import opened Evaluator
  import opened Flattening
  import opened Invocations
  import opened Planning
  import opened SeriesNodes
  import opened Typing

  /** The runs differ at most in the memo. */
  ghost predicate Alike(a: Run, b: Run) {
    a.store == b.store && a.calls == b.calls && a.trace == b.trace && a.failure == b.failure
  }

  function PlainSetting(sc: Setting): Setting {
    sc.(context := sc.context.Plain())
  }

  /** Invoked with its part of the memo, the node traces and returns what it does without one. */
  ghost predicate CallTransparent(sc: Setting, c: Invocation) {
    match sc.catalog.Resolve(c.typeId, c.version)
    case Resolved(i) =>
      SameResult(i.evaluate(sc.context.Invoked(c.path, c.params, c.inputs)), i.evaluate(sc.context.Plain().Invoked(c.path, c.params, c.inputs)))
    case _ => true
  }

  ghost predicate AllTransparent(sc: Setting, calls: seq<Invocation>) {
    forall c :: c in calls ==> CallTransparent(sc, c)
  }

  lemma {:induction false} WriteAlike(a: Run, b: Run, here: Path, declared: map<PortName, PortType>, ports: map<PortName, Produced>, names: seq<PortName>)
    requires ports.Keys == declared.Keys && (forall n :: n in names ==> n in declared) && Alike(a, b)
    ensures Alike(WriteOutputs(a, here, declared, ports, names), WriteOutputs(b, here, declared, ports, names))
  {
    if names != [] {
      WriteAlike(a, b, here, declared, ports, names[..|names| - 1]);
    }
  }

  lemma {:induction false} PublishAlike(a: Run, b: Run, here: Path, exposed: seq<ExposedPort>)
    requires Alike(a, b)
    ensures Alike(Publish(a, here, exposed), Publish(b, here, exposed))
  {
    if exposed != [] {
      PublishAlike(a, b, here, exposed[..|exposed| - 1]);
    }
  }

  lemma InvokeAlike(sc: Setting, i: Implementation, n: Node, path: Path, params: Params, inputs: map<PortName, Value>, a: Run, b: Run)
    requires n.Registered? && sc.catalog.Resolve(n.typeId, n.version) == Resolved(i) && Alike(a, b)
    requires CallTransparent(sc, Invocation(path + [n.id], n.typeId, n.version, params, inputs))
    ensures Alike(Invoke(sc, i, n, path, params, inputs, a), Invoke(PlainSetting(sc), i, n, path, params, inputs, b))
  {
    hide WriteOutputs, OutputTypes, Alike;
    var here, plain := path + [n.id], PlainSetting(sc);
    var x, y := i.evaluate(sc.context.Invoked(here, params, inputs)), i.evaluate(plain.context.Invoked(here, params, inputs));
    var a', b' := Called(sc, n, path, params, inputs, x, a), Called(plain, n, path, params, inputs, y, b);
    assert Alike(a', b') && (forall f :: Alike(a'.(failure := f), b'.(failure := f))) by {
      CalledAlike(sc, n, path, params, inputs, x, y, a, b);
    }
    var declared := OutputTypes(i.outputs);
    if x.outcome.Outputs? && x.outcome.ports.Keys == declared.Keys {
      WriteAlike(a', b', here, declared, x.outcome.ports, Sorted(declared.Keys));
    }
  }

  lemma CalledAlike(sc: Setting, n: Node, path: Path, params: Params, inputs: map<PortName, Value>, x: NodeResult, y: NodeResult, a: Run, b: Run)
    requires n.Registered? && Alike(a, b) && SameResult(x, y)
    ensures var a', b' := Called(sc, n, path, params, inputs, x, a), Called(PlainSetting(sc), n, path, params, inputs, y, b);
      Alike(a', b') && forall f :: Alike(a'.(failure := f), b'.(failure := f))
  {
  }

  lemma RegisteredAlike(sc: Setting, inst: Instance, path: Path, external: map<Slot, Value>, n: Node, a: Run, b: Run)
    requires n.Registered? && n.id in inst.Ids() && NodeOf(inst.Nodes(), n.id) == n && Alike(a, b)
    requires AllTransparent(sc, RunRegistered(PlainSetting(sc), inst, path, external, n, b).calls)
    ensures Alike(RunRegistered(sc, inst, path, external, n, a), RunRegistered(PlainSetting(sc), inst, path, external, n, b))
  {
    hide Gather, Invoke, CallTransparent;
    var resolution := sc.catalog.Resolve(n.typeId, n.version);
    if resolution.Resolved? {
      var gathered := Gather(Wiring(inst.Edges(), external, path), b.store, n.id, Wants(resolution.implementation.inputs));
      if gathered.Inputs? {
        InvokeCalls(PlainSetting(sc), resolution.implementation, n, path, inst.ParamsOf(n.id), gathered.values, b);
        InvokeAlike(sc, resolution.implementation, n, path, inst.ParamsOf(n.id), gathered.values, a, b);
      }
    }
  }

  lemma CallsKept(sc: Setting, inst: Instance, path: Path, external: map<Slot, Value>, id: NodeId, run: Run)
    requires Runnable(sc.plan, inst, path) && id in inst.Ids()
    ensures run.calls <= ExecNode(sc, inst, path, external, id, run).calls
  {
    hide ExecNode, Runnable;
    NodeCalls(sc, inst, path, external, id, run, run.memo);
  }

  lemma {:induction false} NodeAlike(sc: Setting, inst: Instance, path: Path, external: map<Slot, Value>, id: NodeId, a: Run, b: Run)
    requires Runnable(sc.plan, inst, path) && id in inst.Ids() && Alike(a, b)
    requires AllTransparent(sc, ExecNode(PlainSetting(sc), inst, path, external, id, b).calls)
    ensures Alike(ExecNode(sc, inst, path, external, id, a), ExecNode(PlainSetting(sc), inst, path, external, id, b))
    decreases inst, 1, 0
  {
    hide RunRegistered, Publish, Gather, ExecNodes, AllTransparent;
    var plain := PlainSetting(sc);
    var n := NodeOf(inst.Nodes(), id);
    if n.Registered? {
      RegisteredAlike(sc, inst, path, external, n, a, b);
    } else {
      var child, here := inst.children[id], path + [id];
      var gathered := Gather(Wiring(inst.Edges(), external, path), b.store, id, ExposedWants(child.definition.exposedInputs));
      assert ExecNode(plain, inst, path, external, id, b) == RunComponent(plain, inst, path, external, id, b);
      if gathered.Inputs? {
        var nested := ExecGraph(plain, child, here, gathered.values, b);
        PublishKeeps(nested, here, child.definition.exposedOutputs);
        NodesAlike(sc, child, here, gathered.values, sc.plan(here, child.definition.graph), a, b);
        PublishAlike(ExecGraph(sc, child, here, gathered.values, a), nested, here, child.definition.exposedOutputs);
      }
    }
  }

  lemma {:induction false} NodesAlike(sc: Setting, inst: Instance, path: Path, external: map<Slot, Value>, order: seq<NodeId>, a: Run, b: Run)
    requires Runnable(sc.plan, inst, path) && (forall id :: id in order ==> id in inst.Ids()) && Alike(a, b)
    requires AllTransparent(sc, ExecNodes(PlainSetting(sc), inst, path, external, order, b).calls)
    ensures Alike(ExecNodes(sc, inst, path, external, order, a), ExecNodes(PlainSetting(sc), inst, path, external, order, b))
    decreases inst, 2, |order|
  {
    hide ExecNode, Runnable, CallTransparent;
    if order != [] {
      var front, id := order[..|order| - 1], order[|order| - 1];
      var plain := PlainSetting(sc);
      var before := ExecNodes(plain, inst, path, external, front, b);
      if before.failure.None? {
        CallsKept(plain, inst, path, external, id, before);
      }
      NodesAlike(sc, inst, path, external, front, a, b);
      if before.failure.None? {
        NodeAlike(sc, inst, path, external, id, ExecNodes(sc, inst, path, external, front, a), before);
      }
    }
  }

  /** A memo is invisible to an evaluation, failing or not, if it is invisible to every invocation the evaluation makes. */
  lemma EvaluationTransparent(sc: Setting, inst: Instance)
    requires Runnable(sc.plan, inst, []) && AllTransparent(sc, RunOf(PlainSetting(sc), inst).calls)
    ensures Alike(RunOf(sc, inst), RunOf(PlainSetting(sc), inst))
  {
    hide ExecNodes, AllTransparent;
    NodesAlike(sc, inst, [], map[], sc.plan([], inst.definition.graph), sc.context.Start(), PlainSetting(sc).context.Start());
  }

  /** After an evaluation every part of the memo is as it was found, or as an invocation of the node at that path left it. */
  lemma EvaluationAccounted(sc: Setting, inst: Instance)
    requires Runnable(sc.plan, inst, [])
    ensures MemoAccounted(sc, sc.context.Start().memo, RunOf(sc, inst))
    ensures forall c :: c in RunOf(sc, inst).calls ==> KindAt(inst, c.path) == Some(Kind(c.typeId, c.version, c.params))
  {
    hide ExecNodes, MemoAccounted, KindAt;
    var start := sc.context.Start();
    assert MemoAccounted(sc, start.memo, start) by {
      StartAccounted(sc);
    }
    NodesCalls(sc, inst, [], map[], sc.plan([], inst.definition.graph), start, start.memo);
    forall c | c in RunOf(sc, inst).calls ensures KindAt(inst, c.path) == Some(Kind(c.typeId, c.version, c.params)) {
      assert CallInside(inst, [], c);
      assert c.path[0..] == c.path;
    }
  }

  lemma StartAccounted(sc: Setting)
    ensures MemoAccounted(sc, sc.context.Start().memo, sc.context.Start())
  {
  }

  /* ---- the exact condition, on evaluations that succeed ---- */

  /** The average at a leaf has an exact cache for what V feeds it. */
  ghost predicate LeafCacheExact(sc: Setting, inst: Instance, v: Store, rel: Path) {
    match LeafAt(sc.catalog, inst, [], map[], rel)
    case None => true
    case Some(leaf) =>
      match sc.catalog.Resolve(leaf.typeId, leaf.version)
      case Resolved(i) =>
        var inv := sc.context.Invoked(rel, leaf.params, FeedsOf(leaf, v));
        IsAverage(i) && AverageReady(inv) ==> CacheExact(inv)
      case _ => true
  }

  /** An average that returns the same series traces the same. */
  lemma OutcomeDecides(inv: NodeInvocation)
    requires AverageReady(inv) && AverageNode(inv).outcome == AverageNode(inv.Plain()).outcome
    ensures SameResult(AverageNode(inv), AverageNode(inv.Plain()))
  {
    hide AverageSeries, AverageTrace, CacheAfter;
    var a, b := AverageNode(inv).outcome.ports, AverageNode(inv.Plain()).outcome.ports;
    assert a[SERIES] == b[SERIES];
  }

  /** Two contract-meeting outcomes that a store holds at the same place are equal. */
  lemma SameStored(a: NodeOutcome, b: NodeOutcome, declared: map<PortName, PortType>, q: Path, v: Store)
    requires Computes(a, declared, q, v) && Computes(b, declared, q, v)
    ensures a == b
  {
    forall name | name in declared ensures a.ports[name] == b.ports[name] {
      assert Get(v, (q, name)) == Some(a.ports[name].value);
      assert Storable(a.ports[name], declared[name]) && Storable(b.ports[name], declared[name]);
    }
    assert a.ports == b.ports;
  }

  lemma LeafSameIff(sc: Setting, i: Implementation, inv: NodeInvocation)
    requires IgnoresMemo(i) || IsAverage(i)
    requires inv.cache.Some? && Ascending(inv.view.sessions)
    ensures i.evaluate(inv).outcome == i.evaluate(inv.Plain()).outcome <==> (IsAverage(i) && AverageReady(inv) ==> CacheExact(inv))
  {
    hide AverageNode, CacheExact;
    if IsAverage(i) {
      if AverageReady(inv) {
        AverageTransparentIff(inv);
        if AverageNode(inv).outcome == AverageNode(inv.Plain()).outcome { OutcomeDecides(inv); }
      } else {
        NotReady(inv);
      }
    } else {
      assert SameResult(i.evaluate(inv), i.evaluate(inv.Plain()));
    }
  }

  lemma NotReady(inv: NodeInvocation)
    requires !AverageReady(inv)
    ensures AverageNode(inv).outcome == AverageNode(inv.Plain()).outcome
  {
  }

  /** One leaf's equation with the memo and without it. */
  lemma LeafTransparentIff(sc: Setting, inst: Instance, v: Store, rel: Path)
    requires OnlyAveragesMemoise(sc.catalog) && sc.context.memo.Some? && Ascending(sc.context.view.sessions)
    requires LeafAt(sc.catalog, inst, [], map[], rel).Some?
    requires LeafSolved(sc.catalog, sc.context.Plain(), LeafAt(sc.catalog, inst, [], map[], rel).value, rel, v)
    ensures LeafSolved(sc.catalog, sc.context, LeafAt(sc.catalog, inst, [], map[], rel).value, rel, v) <==> LeafCacheExact(sc, inst, v, rel)
  {
    hide LeafAt, IgnoresMemo, IsAverage, CacheExact, Computes, FeedsOf, OutputTypes;
    var leaf := LeafAt(sc.catalog, inst, [], map[], rel).value;
    var i := sc.catalog.Resolve(leaf.typeId, leaf.version).implementation;
    var inv := sc.context.Invoked(rel, leaf.params, FeedsOf(leaf, v));
    assert IgnoresMemo(i) || IsAverage(i);
    assert inv.Plain() == sc.context.Plain().Invoked(rel, leaf.params, FeedsOf(leaf, v));
    LeafSameIff(sc, i, inv);
    if Computes(i.evaluate(inv).outcome, OutputTypes(i.outputs), rel, v) {
      SameStored(i.evaluate(inv).outcome, i.evaluate(inv.Plain()).outcome, OutputTypes(i.outputs), rel, v);
    }
  }

  /** If a document runs without a memo, then running it with one gives the same values if and only if every average's cache
      is exact for the series that reaches it. */
  lemma RunTransparentIff(sc: Setting, inst: Instance)
    requires WellWired(sc.catalog, inst) && TopLevel(inst) && Runnable(sc.plan, inst, [])
    requires OnlyAveragesMemoise(sc.catalog) && sc.context.memo.Some? && Ascending(sc.context.view.sessions)
    requires RunOf(PlainSetting(sc), inst).failure.None?
    ensures var v := RunOf(PlainSetting(sc), inst).store;
      RunOf(sc, inst).failure.None? && RunOf(sc, inst).store == v <==> forall rel :: LeafCacheExact(sc, inst, v, rel)
  {
    hide RunOf, Runnable, WellWired, LeafAt, LeafSolved, LeafCacheExact, GraphMeaning, FlatAt, OnlyAveragesMemoise;
    var plain := PlainSetting(sc);
    var v := RunOf(plain, inst).store;
    RunSolvesEquations(plain, inst);
    forall rel | LeafAt(sc.catalog, inst, [], map[], rel).Some?
      ensures LeafSolved(sc.catalog, sc.context, LeafAt(sc.catalog, inst, [], map[], rel).value, [] + rel, v) <==> LeafCacheExact(sc, inst, v, rel)
    {
      assert [] + rel == rel;
      LeafTransparentIff(sc, inst, v, rel);
    }
    if RunOf(sc, inst).failure.None? && RunOf(sc, inst).store == v {
      RunSolvesEquations(sc, inst);
      forall rel ensures LeafCacheExact(sc, inst, v, rel) {
        if LeafAt(sc.catalog, inst, [], map[], rel).None? { NoLeaf(sc, inst, v, rel); }
      }
    }
    if forall rel :: LeafCacheExact(sc, inst, v, rel) {
      assert Equations(sc.catalog, sc.context, inst, v);
      SolutionIsComputed(sc, inst, v);
      SameMeaning(sc, plain, inst, v);
    }
  }

  lemma NoLeaf(sc: Setting, inst: Instance, v: Store, rel: Path)
    requires LeafAt(sc.catalog, inst, [], map[], rel).None?
    ensures LeafCacheExact(sc, inst, v, rel)
  {
  }

  /** Two runs with the same meaning have the same store. */
  lemma SameMeaning(sc: Setting, sc': Setting, inst: Instance, v: Store)
    requires Runnable(sc.plan, inst, []) && Runnable(sc'.plan, inst, [])
    requires GraphMeaning(inst, [], RunOf(sc, inst).store, v) && GraphMeaning(inst, [], RunOf(sc', inst).store, v)
    ensures RunOf(sc, inst).store == RunOf(sc', inst).store
  {
    hide RunOf, Runnable, FlatAt;
    var s, s' := RunOf(sc, inst).store, RunOf(sc', inst).store;
    TopKeysNonempty(sc, inst);
    TopKeysNonempty(sc', inst);
    forall a: Address ensures Get(s, a) == Get(s', a) {
      var (rel, port) := a;
      if rel != [] {
        assert [] + rel == rel;
        assert MeansAt(inst, [], s, v, rel, port) && MeansAt(inst, [], s', v, rel, port);
      }
    }
    SameMaps(s, s');
  }
}
