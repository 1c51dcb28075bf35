/** One document evaluated at two instants over one dataset: wherever both evaluations hold a series, the later one only
    extends the earlier one. */
module Growth {
  import opened Collections
  import opened Compositionality
  import opened Denotation
  import opened Diagnostics
  import opened Documents
  import opened Evaluator
  import opened Frames
  import opened Invocations
  import opened Market
  import opened Planning
  import opened SeriesNodes
  import opened Typing

  /** Where both hold a value, the second grows out of the first. */
  ghost predicate MapsGrow<K(!new)>(m: map<K, Value>, n: map<K, Value>) {
    forall k :: k in m && k in n ==> ValueGrows(m[k], n[k])
  }

  ghost predicate CallsGrow(cs: seq<Invocation>, ds: seq<Invocation>) {
    forall c, d :: c in cs && d in ds && c.path == d.path ==> InputsGrow(c.inputs, d.inputs)
  }

  ghost predicate RunsGrow(r: Run, q: Run) {
    MapsGrow(r.store, q.store) && CallsGrow(r.calls, q.calls)
  }

  ghost predicate ProducesNoSeries(i: Implementation) {
    forall name :: name in OutputTypes(i.outputs) ==> OutputTypes(i.outputs)[name] != TimeSeriesType
  }

  /** Every series of the catalog's nodes only grows. */
  ghost predicate SeriesKeepGrowing(d: DataSet, cat: Catalog) {
    forall k :: k in cat.byKey ==> KeepsGrowth(d, cat.byKey[k]) || ProducesNoSeries(cat.byKey[k])
  }

  /** The same evaluation at two instants, neither with a memo. */
  ghost predicate TwoInstants(d: DataSet, sc: Setting, sc': Setting) {
    && sc.catalog == sc'.catalog && sc.plan == sc'.plan && SeriesKeepGrowing(d, sc.catalog)
    && sc.context.memo.None? && sc'.context.memo.None?
    && sc.context.view == AsOf(d, sc.context.view.instant) && sc'.context.view == AsOf(d, sc'.context.view.instant)
    && sc.context.view.instant <= sc'.context.view.instant
  }

  ghost predicate NoCallsUnder(run: Run, prefix: Path) {
    forall c :: c in run.calls ==> !(prefix <= c.path)
  }

  ghost predicate NoCallsBelow(run: Run, prefix: Path) {
    forall c :: c in run.calls ==> !(prefix < c.path)
  }

  /** Nothing of the node's subtree has happened yet. */
  ghost predicate Untouched(run: Run, here: Path) {
    run.failure.None? && FreshUnder(run.store, here) && NoCallsUnder(run, here)
  }

  /** Only the earlier run goes on: nothing new can meet anything of the later one. */
  lemma OneGoesOn(r: Run, after: Run, q: Run, here: Path)
    requires RunsGrow(r, q) && OnlyUnder(r.store, after.store, here)
    requires FreshUnder(q.store, here) && NoCallsUnder(q, here)
    requires forall c :: c in after.calls ==> c in r.calls || here <= c.path
    ensures RunsGrow(after, q)
  {
    forall a: Address | a in after.store && a in q.store ensures ValueGrows(after.store[a], q.store[a]) {
      assert Get(q.store, a).Some?;
      assert Get(r.store, a) == Get(after.store, a);
    }
  }

  /* ---- inputs ---- */

  ghost predicate PortsGrow(w: Wiring, s: Store, w': Wiring, s': Store, node: NodeId) {
    forall port :: InputValue(w, s, node, port).Some? && InputValue(w', s', node, port).Some? ==>
      ValueGrows(InputValue(w, s, node, port).value, InputValue(w', s', node, port).value)
  }

  lemma PortsFromStores(inst: Instance, path: Path, external: map<Slot, Value>, external': map<Slot, Value>, s: Store, s': Store, node: NodeId)
    requires MapsGrow(s, s') && MapsGrow(external, external')
    ensures PortsGrow(Wiring(inst.Edges(), external, path), s, Wiring(inst.Edges(), external', path), s', node)
  {
    hide ValueGrows;
  }

  lemma RegisteredInputsGrow(w: Wiring, s: Store, w': Wiring, s': Store, node: NodeId, ports: seq<InputPort>)
    requires PortsGrow(w, s, w', s', node)
    requires Gather(w, s, node, Wants(ports)).Inputs? && Gather(w', s', node, Wants(ports)).Inputs?
    ensures InputsGrow(Gather(w, s, node, Wants(ports)).values, Gather(w', s', node, Wants(ports)).values)
  {
    hide Gather, InputValue, ValueGrows;
    var wants := Wants(ports);
    GatherIs(w, s, node, wants);
    GatherIs(w', s', node, wants);
    var m, n := Gather(w, s, node, wants).values, Gather(w', s', node, wants).values;
    forall p | p in m && p in n ensures ValueGrows(m[p], n[p]) {
      assert Supplies(w, s, node, wants, p, m[p]) && Supplies(w', s', node, wants, p, n[p]);
      assert InputValue(w, s, node, p) == Some(m[p]) && InputValue(w', s', node, p) == Some(n[p]);
    }
  }

  lemma {:induction false} ExposedInputsGrow(w: Wiring, s: Store, w': Wiring, s': Store, node: NodeId, ports: seq<ExposedPort>)
    requires PortsGrow(w, s, w', s', node)
    requires Gather(w, s, node, ExposedWants(ports)).Inputs? && Gather(w', s', node, ExposedWants(ports)).Inputs?
    ensures MapsGrow(Gather(w, s, node, ExposedWants(ports)).values, Gather(w', s', node, ExposedWants(ports)).values)
  {
    hide InputValue, ValueGrows;
    if ports != [] {
      var n := |ports| - 1;
      assert ExposedWants(ports)[..n] == ExposedWants(ports[..n]);
      ExposedInputsGrow(w, s, w', s', node, ports[..n]);
    }
  }

  /* ---- outputs ---- */

  /** A store address holds what it held, or one of the produced values at its declared type. */
  ghost predicate WrittenFrom(before: Store, after: Store, here: Path, declared: map<PortName, PortType>, ports: map<PortName, Produced>) {
    forall a: Address :: Get(after, a) == Get(before, a)
      || (a.0 == here && a.1 in ports && a.1 in declared && Storable(ports[a.1], declared[a.1]) && Get(after, a) == Some(ports[a.1].value))
  }

  lemma {:induction false} WriteOutputsFrom(run: Run, here: Path, declared: map<PortName, PortType>, ports: map<PortName, Produced>, names: seq<PortName>)
    requires ports.Keys == declared.Keys && forall n :: n in names ==> n in declared
    ensures WrittenFrom(run.store, WriteOutputs(run, here, declared, ports, names).store, here, declared, ports)
  {
    if names != [] {
      WriteOutputsFrom(run, here, declared, ports, names[..|names| - 1]);
    }
  }

  /** What an invocation stores comes from what the node returned. */
  lemma InvokeStores(sc: Setting, i: Implementation, n: Node, path: Path, params: Params, inputs: map<PortName, Value>, run: Run)
    requires n.Registered?
    ensures var outcome := i.evaluate(sc.context.Invoked(path + [n.id], params, inputs)).outcome;
      var after := Invoke(sc, i, n, path, params, inputs, run).store;
      if outcome.Outputs? then WrittenFrom(run.store, after, path + [n.id], OutputTypes(i.outputs), outcome.ports) else after == run.store
  {
    hide WriteOutputs, OutputTypes, Storable;
    var here := path + [n.id];
    var result := i.evaluate(sc.context.Invoked(here, params, inputs));
    var called := Called(sc, n, path, params, inputs, result, run);
    var declared := OutputTypes(i.outputs);
    if result.outcome.Outputs? && result.outcome.ports.Keys == declared.Keys {
      WriteOutputsFrom(called, here, declared, result.outcome.ports, Sorted(declared.Keys));
    }
  }

  lemma StoredGrow(s: Store, after: Store, t: Store, after': Store, here: Path, declared: map<PortName, PortType>,
                   ports: map<PortName, Produced>, ports': map<PortName, Produced>)
    requires MapsGrow(s, t) && FreshUnder(s, here) && FreshUnder(t, here)
    requires WrittenFrom(s, after, here, declared, ports) && WrittenFrom(t, after', here, declared, ports')
    requires (forall p :: PortGrows(ports, ports', p)) || forall name :: name in declared ==> declared[name] != TimeSeriesType
    ensures MapsGrow(after, after')
  {
    forall a: Address | a in after && a in after' ensures ValueGrows(after[a], after'[a]) {
      assert Get(after, a).Some? && Get(after', a).Some?;
      if here <= a.0 {
        assert Get(s, a) == None && Get(t, a) == None;
        assert PortGrows(ports, ports', a.1) || declared[a.1] != TimeSeriesType;
      } else {
        assert a.0 != here;
        assert Get(after, a) == Get(s, a) && Get(after', a) == Get(t, a);
      }
    }
  }

  lemma OnlyStored(s: Store, after: Store, here: Path, declared: map<PortName, PortType>, ports: map<PortName, Produced>)
    requires WrittenFrom(s, after, here, declared, ports)
    ensures OnlyUnder(s, after, here)
  {
  }

  /** Two invocations of one node on growing inputs. */
  lemma InvokesGrow(d: DataSet, sc: Setting, sc': Setting, i: Implementation, n: Node, path: Path, params: Params,
                    inputs: map<PortName, Value>, inputs': map<PortName, Value>, r: Run, q: Run)
    requires TwoInstants(d, sc, sc') && n.Registered? && sc.catalog.Resolve(n.typeId, n.version) == Resolved(i)
    requires RunsGrow(r, q) && InputsGrow(inputs, inputs') && Untouched(r, path + [n.id]) && Untouched(q, path + [n.id])
    ensures RunsGrow(Invoke(sc, i, n, path, params, inputs, r), Invoke(sc', i, n, path, params, inputs', q))
  {
    hide Invoke, WrittenFrom, MapsGrow, OutputTypes, FreshUnder, AsOf, InputsGrow, PortGrows;
    var here := path + [n.id];
    InvokeStores(sc, i, n, path, params, inputs, r);
    InvokeStores(sc', i, n, path, params, inputs', q);
    InvokeCalls(sc, i, n, path, params, inputs, r);
    InvokeCalls(sc', i, n, path, params, inputs', q);
    var inv, inv' := sc.context.Invoked(here, params, inputs), sc'.context.Invoked(here, params, inputs');
    assert Later(d, inv, inv');
    assert KeepsGrowth(d, i) || ProducesNoSeries(i);
    var a, b := i.evaluate(inv).outcome, i.evaluate(inv').outcome;
    var after, after' := Invoke(sc, i, n, path, params, inputs, r).store, Invoke(sc', i, n, path, params, inputs', q).store;
    if a.Outputs? && b.Outputs? {
      assert KeepsGrowth(d, i) ==> OutcomeGrows(a, b);
      StoredGrow(r.store, after, q.store, after', here, OutputTypes(i.outputs), a.ports, b.ports);
    } else {
      if a.Outputs? {
        OnlyStored(r.store, after, here, OutputTypes(i.outputs), a.ports);
        OneSide(r.store, after, q.store, here);
      }
      if b.Outputs? {
        OnlyStored(q.store, after', here, OutputTypes(i.outputs), b.ports);
        OneSide'(r.store, q.store, after', here);
      }
    }
  }

  lemma OneSide(s: Store, after: Store, t: Store, here: Path)
    requires MapsGrow(s, t) && OnlyUnder(s, after, here) && FreshUnder(t, here)
    ensures MapsGrow(after, t)
  {
    forall a: Address | a in after && a in t ensures ValueGrows(after[a], t[a]) {
      assert Get(t, a).Some?;
      assert Get(s, a) == Get(after, a);
    }
  }

  lemma OneSide'(s: Store, t: Store, after: Store, here: Path)
    requires MapsGrow(s, t) && OnlyUnder(t, after, here) && FreshUnder(s, here)
    ensures MapsGrow(s, after)
  {
    forall a: Address | a in s && a in after ensures ValueGrows(s[a], after[a]) {
      assert Get(s, a).Some?;
      assert Get(t, a) == Get(after, a);
    }
  }

  lemma RegisteredGrows(d: DataSet, sc: Setting, sc': Setting, inst: Instance, path: Path, external: map<Slot, Value>,
                        external': map<Slot, Value>, n: Node, r: Run, q: Run)
    requires TwoInstants(d, sc, sc') && n.Registered? && n.id in inst.Ids() && NodeOf(inst.Nodes(), n.id) == n
    requires RunsGrow(r, q) && MapsGrow(external, external') && Untouched(r, path + [n.id]) && Untouched(q, path + [n.id])
    requires RunRegistered(sc, inst, path, external, n, r).failure.None?
    ensures RunsGrow(RunRegistered(sc, inst, path, external, n, r), RunRegistered(sc', inst, path, external', n, q))
  {
    hide Gather, Invoke, TwoInstants, FreshUnder, MapsGrow, CallsGrow, OnlyUnder, InputsGrow;
    var i := sc.catalog.Resolve(n.typeId, n.version).implementation;
    var w, w' := Wiring(inst.Edges(), external, path), Wiring(inst.Edges(), external', path);
    var a, b := Gather(w, r.store, n.id, Wants(i.inputs)), Gather(w', q.store, n.id, Wants(i.inputs));
    SameCatalog(d, sc, sc');
    PortsFromStores(inst, path, external, external', r.store, q.store, n.id);
    if b.Inputs? {
      RegisteredInputsGrow(w, r.store, w', q.store, n.id, i.inputs);
      InvokesGrow(d, sc, sc', i, n, path, inst.ParamsOf(n.id), a.values, b.values, r, q);
    } else {
      InvokeFrame(sc, i, n, path, inst.ParamsOf(n.id), a.values, r);
      InvokeCalls(sc, i, n, path, inst.ParamsOf(n.id), a.values, r);
      OneGoesOn(r, Invoke(sc, i, n, path, inst.ParamsOf(n.id), a.values, r), q, path + [n.id]);
    }
  }

  lemma SameCatalog(d: DataSet, sc: Setting, sc': Setting)
    requires TwoInstants(d, sc, sc')
    ensures sc.catalog == sc'.catalog && sc.plan == sc'.plan
  {
  }

  /* ---- components ---- */

  /** What publication puts at an exposed name is what the exposure with that name maps to. */
  ghost predicate PublishedFrom(before: Store, after: Store, here: Path, exposed: seq<ExposedPort>) {
    forall a: Address :: Get(after, a) == Get(before, a)
      || (a.0 == here && exists e :: e in exposed && e.name == a.1 && Get(after, a) == Get(before, (here + [e.node], e.port)))
  }

  lemma {:induction false} PublishFrom(run: Run, here: Path, exposed: seq<ExposedPort>)
    ensures PublishedFrom(run.store, Publish(run, here, exposed).store, here, exposed)
  {
    if exposed != [] {
      var n := |exposed| - 1;
      var front, e := exposed[..n], exposed[n];
      PublishFrom(run, here, front);
      PublishFrame(run, here, front);
      var before, after := Publish(run, here, front).store, Publish(run, here, exposed).store;
      assert forall x :: x in front ==> x in exposed;
      forall a: Address ensures Get(after, a) == Get(run.store, a)
        || (a.0 == here && exists x :: x in exposed && x.name == a.1 && Get(after, a) == Get(run.store, (here + [x.node], x.port)))
      {
        var source: Address := (here + [e.node], e.port);
        assert source.0 != here;
        assert Get(before, source) == Get(run.store, source);
        assert e in exposed;
      }
    }
  }

  lemma PublishesGrow(s: Store, after: Store, t: Store, after': Store, here: Path, exposed: seq<ExposedPort>)
    requires MapsGrow(s, t) && DistinctNames(exposed)
    requires PublishedFrom(s, after, here, exposed) && PublishedFrom(t, after', here, exposed)
    requires (forall name :: Get(s, (here, name)) == None) && forall name :: Get(t, (here, name)) == None
    ensures MapsGrow(after, after')
  {
    hide ValueGrows;
    forall a: Address | a in after && a in after' ensures ValueGrows(after[a], after'[a]) {
      assert Get(after, a).Some? && Get(after', a).Some?;
      if a.0 == here {
        var (q, name) := a;
        assert Get(s, (here, name)) == None && Get(t, (here, name)) == None;
        var e :| e in exposed && e.name == a.1 && Get(after, a) == Get(s, (here + [e.node], e.port));
        var f :| f in exposed && f.name == a.1 && Get(after', a) == Get(t, (here + [f.node], f.port));
        assert e == f;
        var source: Address := (here + [e.node], e.port);
        assert source in s && source in t;
      } else {
        assert Get(after, a) == Get(s, a) && Get(after', a) == Get(t, a);
      }
    }
  }

  lemma Inside(run: Run, here: Path)
    requires Untouched(run, here)
    ensures FreshBelow(run.store, here) && NoCallsBelow(run, here)
  {
  }

  lemma {:induction false} NodeGrows(d: DataSet, sc: Setting, sc': Setting, inst: Instance, path: Path, external: map<Slot, Value>,
                                     external': map<Slot, Value>, id: NodeId, r: Run, q: Run)
    requires TwoInstants(d, sc, sc') && WellWired(sc.catalog, inst) && Runnable(sc.plan, inst, path) && id in inst.Ids()
    requires RunsGrow(r, q) && MapsGrow(external, external') && Untouched(r, path + [id]) && Untouched(q, path + [id])
    requires Runnable(sc'.plan, inst, path) && ExecNode(sc, inst, path, external, id, r).failure.None?
    ensures RunsGrow(ExecNode(sc, inst, path, external, id, r), ExecNode(sc', inst, path, external', id, q))
    decreases inst, 1, 0
  {
    hide RunRegistered, Publish, Gather, ExecNodes, TwoInstants, FreshUnder, FreshBelow, MapsGrow, CallsGrow, NoCallsUnder, NoCallsBelow, OnlyUnder, PublishedFrom;
    hide GraphWired, ComponentReady;
    var n := NodeOf(inst.Nodes(), id);
    SameCatalog(d, sc, sc');
    if n.Registered? {
      RegisteredGrows(d, sc, sc', inst, path, external, external', n, r, q);
    } else {
      var child, here := inst.children[id], path + [id];
      var w, w' := Wiring(inst.Edges(), external, path), Wiring(inst.Edges(), external', path);
      var exposed := child.definition.exposedInputs;
      var a, b := Gather(w, r.store, id, ExposedWants(exposed)), Gather(w', q.store, id, ExposedWants(exposed));
      PortsFromStores(inst, path, external, external', r.store, q.store, id);
      if b.Inputs? {
        ExposedInputsGrow(w, r.store, w', q.store, id, exposed);
        Inside(r, here);
        Inside(q, here);
        ChildReady(sc.catalog, inst, id);
        ChildExposures(sc.catalog, inst, id);
        var order := sc.plan(here, child.definition.graph);
        assert ExecNode(sc, inst, path, external, id, r) == RunComponent(sc, inst, path, external, id, r);
        assert ExecGraph(sc, child, here, a.values, r).failure.None?;
        NodesGrow(d, sc, sc', child, here, a.values, b.values, order, r, q);
        ComponentPublishes(sc, sc', child, here, a.values, b.values, r, q);
      } else {
        NodeCalls(sc, inst, path, external, id, r, r.memo);
        NodeFrame(sc, inst, path, external, id, r);
        OneGoesOn(r, ExecNode(sc, inst, path, external, id, r), q, here);
      }
    }
  }

  lemma ComponentPublishes(sc: Setting, sc': Setting, child: Instance, here: Path, values: map<Slot, Value>, values': map<Slot, Value>, r: Run, q: Run)
    requires Runnable(sc.plan, child, here) && Runnable(sc'.plan, child, here) && DistinctNames(child.definition.exposedOutputs)
    requires FreshUnder(r.store, here) && FreshUnder(q.store, here)
    requires RunsGrow(ExecGraph(sc, child, here, values, r), ExecGraph(sc', child, here, values', q))
    ensures var a, b := ExecGraph(sc, child, here, values, r), ExecGraph(sc', child, here, values', q);
      var exposed := child.definition.exposedOutputs;
      RunsGrow(Publish(a, here, exposed), Publish(b, here, exposed)) && RunsGrow(Publish(a, here, exposed), b)
  {
    hide Publish, ExecGraph, FreshUnder, MapsGrow, PublishedFrom;
    var a, b := ExecGraph(sc, child, here, values, r), ExecGraph(sc', child, here, values', q);
    var exposed := child.definition.exposedOutputs;
    PublishFrom(a, here, exposed);
    PublishFrom(b, here, exposed);
    PublishKeeps(a, here, exposed);
    PublishKeeps(b, here, exposed);
    GraphWritesBelow(sc, child, here, values, r);
    GraphWritesBelow(sc', child, here, values', q);
    PublishesGrow(a.store, Publish(a, here, exposed).store, b.store, Publish(b, here, exposed).store, here, exposed);
    NothingPublished(b.store, here, exposed);
    PublishesGrow(a.store, Publish(a, here, exposed).store, b.store, b.store, here, exposed);
  }

  lemma NothingPublished(s: Store, here: Path, exposed: seq<ExposedPort>)
    ensures PublishedFrom(s, s, here, exposed)
  {
  }

  /* ---- graphs ---- */

  /** A node that has not run is untouched. */
  lemma NotRunUntouched(sc: Setting, inst: Instance, path: Path, external: map<Slot, Value>, front: seq<NodeId>, run: Run, id: NodeId)
    requires Runnable(sc.plan, inst, path) && forall x :: x in front ==> x in inst.Ids()
    requires FreshBelow(run.store, path) && NoCallsBelow(run, path) && id !in front
    ensures var before := ExecNodes(sc, inst, path, external, front, run);
      FreshUnder(before.store, path + [id]) && NoCallsUnder(before, path + [id])
  {
    hide ExecNodes, FreshBelow, FreshUnder, Runnable, MemoAccounted;
    NotRunFresh(sc, inst, path, external, front, run, id);
    assert MemoAccounted(sc, run.memo, run) by { OwnAccounted(sc, run); }
    NodesCalls(sc, inst, path, external, front, run, run.memo);
    var before := ExecNodes(sc, inst, path, external, front, run);
    forall c | c in before.calls ensures !(path + [id] <= c.path) {
      UnderIsBelow(path, id, c.path);
      if c !in run.calls {
        var x :| x in front && path + [x] <= c.path;
        UnderIsBelow(path, x, c.path);
      }
    }
  }

  lemma OwnAccounted(sc: Setting, run: Run)
    ensures MemoAccounted(sc, run.memo, run)
  {
  }

  lemma {:induction false} NodesGrow(d: DataSet, sc: Setting, sc': Setting, inst: Instance, path: Path, external: map<Slot, Value>,
                                     external': map<Slot, Value>, order: seq<NodeId>, r: Run, q: Run)
    requires TwoInstants(d, sc, sc') && WellWired(sc.catalog, inst) && Runnable(sc.plan, inst, path) && Runnable(sc'.plan, inst, path)
    requires Distinct(order) && forall id :: id in order ==> id in inst.Ids()
    requires RunsGrow(r, q) && MapsGrow(external, external') && r.failure.None? && q.failure.None?
    requires FreshBelow(r.store, path) && FreshBelow(q.store, path) && NoCallsBelow(r, path) && NoCallsBelow(q, path)
    requires ExecNodes(sc, inst, path, external, order, r).failure.None?
    ensures RunsGrow(ExecNodes(sc, inst, path, external, order, r), ExecNodes(sc', inst, path, external', order, q))
    decreases inst, 2, |order|
  {
    hide ExecNode, Runnable, TwoInstants, WellWired, FreshUnder, FreshBelow, MapsGrow, CallsGrow, NoCallsUnder, NoCallsBelow, OnlyUnder, MemoAccounted, CallInside;
    if order != [] {
      var front, id := order[..|order| - 1], order[|order| - 1];
      assert id !in front;
      var before, before' := ExecNodes(sc, inst, path, external, front, r), ExecNodes(sc', inst, path, external', front, q);
      NodesGrow(d, sc, sc', inst, path, external, external', front, r, q);
      NotRunUntouched(sc, inst, path, external, front, r, id);
      NotRunUntouched(sc', inst, path, external', front, q, id);
      if before'.failure.None? {
        NodeGrows(d, sc, sc', inst, path, external, external', id, before, before');
      } else {
        assert MemoAccounted(sc, before.memo, before) by { OwnAccounted(sc, before); }
        NodeCalls(sc, inst, path, external, id, before, before.memo);
        NodeFrame(sc, inst, path, external, id, before);
        OneGoesOn(before, ExecNode(sc, inst, path, external, id, before), before', path + [id]);
      }
    }
  }

  /** Over a catalog whose series only grow, the series delivered to any node by an evaluation that succeeded are extended by
      those that a later evaluation, failing or not, delivers to the same node. */
  lemma EvaluationsGrow(d: DataSet, sc: Setting, sc': Setting, inst: Instance)
    requires TwoInstants(d, sc, sc') && WellWired(sc.catalog, inst) && Runnable(sc.plan, inst, []) && Runnable(sc'.plan, inst, [])
    requires RunOf(sc, inst).failure.None?
    ensures RunsGrow(RunOf(sc, inst), RunOf(sc', inst))
  {
    hide ExecNodes, TwoInstants, WellWired;
    SameCatalog(d, sc, sc');
    NodesGrow(d, sc, sc', inst, [], map[], map[], sc.plan([], inst.definition.graph), sc.context.Start(), sc'.context.Start());
  }
}
