/** Where an execution writes: a node only under its own path. */
module Frames {
  import opened Collections
  import opened Diagnostics
  import opened Documents
  import opened Evaluator
  import opened Planning

  /** s and t differ only at addresses of the subtree at prefix. */
  ghost predicate OnlyUnder(s: Store, t: Store, prefix: Path) {
    forall a: Address :: prefix <= a.0 || Get(s, a) == Get(t, a)
  }

  /** s and t differ only strictly inside the subtree at prefix. */
  ghost predicate OnlyBelow(s: Store, t: Store, prefix: Path) {
    forall a: Address :: prefix < a.0 || Get(s, a) == Get(t, a)
  }

  lemma UnderIsBelow(path: Path, x: NodeId, p: Path)
    ensures path + [x] <= p ==> path < p && p[|path|] == x
    ensures path < p ==> path + [p[|path|]] <= p
  {
    if path + [x] <= p {
      assert (path + [x])[|path|] == x;
      assert p[..|path|] == (path + [x])[..|path|] == path;
    }
    if path < p {
      assert p[..|path| + 1] == path + [p[|path|]];
    }
  }

  lemma UnderThenBelow(s: Store, t: Store, path: Path, x: NodeId)
    requires OnlyUnder(s, t, path + [x])
    ensures OnlyBelow(s, t, path)
  {
    forall a: Address ensures path < a.0 || Get(s, a) == Get(t, a) {
      UnderIsBelow(path, x, a.0);
    }
  }

  lemma {:induction false} WriteOutputsFrame(run: Run, here: Path, declared: map<PortName, PortType>, ports: map<PortName, Produced>, names: seq<PortName>)
    requires ports.Keys == declared.Keys && forall n :: n in names ==> n in declared
    ensures OnlyUnder(run.store, WriteOutputs(run, here, declared, ports, names).store, here)
  {
    if names != [] {
      WriteOutputsFrame(run, here, declared, ports, names[..|names| - 1]);
    }
  }

  lemma InvokeFrame(sc: Setting, implementation: Implementation, n: Node, path: Path, params: Params, inputs: map<PortName, Value>, run: Run)
    requires n.Registered?
    ensures OnlyUnder(run.store, Invoke(sc, implementation, n, path, params, inputs, run).store, path + [n.id])
  {
    hide WriteOutputs, OnlyUnder;
    var here := path + [n.id];
    NoChange(run.store, here);
    var result := implementation.evaluate(sc.context.Invoked(here, params, inputs));
    var called := Called(sc, n, path, params, inputs, result, run);
    var declared := OutputTypes(implementation.outputs);
    if result.outcome.Outputs? && result.outcome.ports.Keys == declared.Keys {
      WriteOutputsFrame(called, here, declared, result.outcome.ports, Sorted(declared.Keys));
    }
  }

  lemma RegisteredFrame(sc: Setting, inst: Instance, path: Path, external: map<Slot, Value>, n: Node, run: Run)
    requires n.Registered?
    ensures OnlyUnder(run.store, RunRegistered(sc, inst, path, external, n, run).store, path + [n.id])
  {
    hide Gather, Invoke, OnlyUnder;
    NoChange(run.store, path + [n.id]);
    var resolution := sc.catalog.Resolve(n.typeId, n.version);
    if resolution.Resolved? {
      var gathered := Gather(Wiring(inst.Edges(), external, path), run.store, n.id, Wants(resolution.implementation.inputs));
      if gathered.Inputs? {
        InvokeFrame(sc, resolution.implementation, n, path, inst.ParamsOf(n.id), gathered.values, run);
      }
    }
  }

  lemma NoChange(s: Store, prefix: Path)
    ensures OnlyUnder(s, s, prefix) && OnlyBelow(s, s, prefix)
  {
  }

  /** Publishing writes exactly at here. */
  lemma {:induction false} PublishFrame(run: Run, here: Path, exposed: seq<ExposedPort>)
    ensures OnlyUnder(run.store, Publish(run, here, exposed).store, here)
    ensures forall a: Address :: a.0 != here ==> Get(run.store, a) == Get(Publish(run, here, exposed).store, a)
  {
    if exposed != [] {
      PublishFrame(run, here, exposed[..|exposed| - 1]);
    }
  }

  lemma BelowThenPublish(s: Store, t: Store, u: Store, here: Path)
    requires OnlyBelow(s, t, here) && OnlyUnder(t, u, here)
    ensures OnlyUnder(s, u, here)
  {
    forall a: Address ensures here <= a.0 || Get(s, a) == Get(u, a) {
      assert Get(s, a) == Get(t, a) || here < a.0;
    }
  }

  lemma BelowTransitive(s: Store, t: Store, u: Store, path: Path)
    requires OnlyBelow(s, t, path) && OnlyBelow(t, u, path)
    ensures OnlyBelow(s, u, path)
  {
    forall a: Address ensures path < a.0 || Get(s, a) == Get(u, a) {
      assert Get(s, a) == Get(t, a) || path < a.0;
    }
  }

  /** A node writes only under its own path. */
  lemma {:induction false} NodeFrame(sc: Setting, inst: Instance, path: Path, external: map<Slot, Value>, id: NodeId, run: Run)
    requires Runnable(sc.plan, inst, path) && id in inst.Ids()
    ensures OnlyUnder(run.store, ExecNode(sc, inst, path, external, id, run).store, path + [id])
    decreases inst, 1, 0
  {
    hide RunRegistered, OnlyUnder, OnlyBelow, Publish, Gather, ExecNodes;
    var n := NodeOf(inst.Nodes(), id);
    if n.Registered? {
      RegisteredFrame(sc, inst, path, external, n, run);
    } else {
      var child, here := inst.children[id], path + [id];
      NoChange(run.store, here);
      var gathered := Gather(Wiring(inst.Edges(), external, path), run.store, id, ExposedWants(child.definition.exposedInputs));
      if gathered.Inputs? {
        var values := gathered.values;
        var order := sc.plan(here, child.definition.graph);
        NodesFrame(sc, child, here, values, order, run);
        var nested := ExecGraph(sc, child, here, values, run);
        PublishFrame(nested, here, child.definition.exposedOutputs);
        NoChange(nested.store, here);
        BelowThenPublish(run.store, nested.store, nested.store, here);
        BelowThenPublish(run.store, nested.store, Publish(nested, here, child.definition.exposedOutputs).store, here);
      }
    }
  }

  /** Executing a graph writes only inside its own subtree. */
  lemma {:induction false} NodesFrame(sc: Setting, inst: Instance, path: Path, external: map<Slot, Value>, order: seq<NodeId>, run: Run)
    requires Runnable(sc.plan, inst, path) && forall id :: id in order ==> id in inst.Ids()
    ensures OnlyBelow(run.store, ExecNodes(sc, inst, path, external, order, run).store, path)
    decreases inst, 2, |order|
  {
    hide OnlyBelow, ExecNode, OnlyUnder, Runnable;
    NoChange(run.store, path);
    if order != [] {
      var front, id := order[..|order| - 1], order[|order| - 1];
      var before := ExecNodes(sc, inst, path, external, front, run);
      NodesFrame(sc, inst, path, external, front, run);
      if before.failure.None? {
        NodeFrame(sc, inst, path, external, id, before);
        var after := ExecNode(sc, inst, path, external, id, before);
        UnderThenBelow(before.store, after.store, path, id);
        BelowTransitive(run.store, before.store, after.store, path);
      }
    }
  }

  /* ---- the memo ---- */

  /** The memos differ only at or below prefix. */
  ghost predicate MemoUnder(m: Memo, n: Memo, prefix: Path) {
    forall p: Path :: prefix <= p || Get(m, p) == Get(n, p)
  }

  /** The memos differ only strictly below prefix. */
  ghost predicate MemoBelow(m: Memo, n: Memo, prefix: Path) {
    forall p: Path :: prefix < p || Get(m, p) == Get(n, p)
  }

  lemma MemoSteps(m: Memo, n: Memo, o: Memo, path: Path, x: NodeId)
    requires MemoBelow(m, n, path) && MemoUnder(n, o, path + [x])
    ensures MemoBelow(m, o, path)
  {
    forall p: Path ensures path < p || Get(m, p) == Get(o, p) {
      assert Get(m, p) == Get(n, p) || path < p;
      UnderIsBelow(path, x, p);
    }
  }

  lemma {:induction false} WriteKeepsMemo(run: Run, here: Path, declared: map<PortName, PortType>, ports: map<PortName, Produced>, names: seq<PortName>)
    requires ports.Keys == declared.Keys && forall n :: n in names ==> n in declared
    ensures WriteOutputs(run, here, declared, ports, names).memo == run.memo
  {
    if names != [] {
      WriteKeepsMemo(run, here, declared, ports, names[..|names| - 1]);
    }
  }

  lemma {:induction false} PublishKeepsMemo(run: Run, here: Path, exposed: seq<ExposedPort>)
    ensures Publish(run, here, exposed).memo == run.memo
  {
    if exposed != [] {
      PublishKeepsMemo(run, here, exposed[..|exposed| - 1]);
    }
  }

  lemma InvokeMemo(sc: Setting, implementation: Implementation, n: Node, path: Path, params: Params, inputs: map<PortName, Value>, run: Run)
    requires n.Registered?
    ensures MemoUnder(run.memo, Invoke(sc, implementation, n, path, params, inputs, run).memo, path + [n.id])
  {
    hide WriteOutputs;
    var here := path + [n.id];
    var result := implementation.evaluate(sc.context.Invoked(here, params, inputs));
    var called := Called(sc, n, path, params, inputs, result, run);
    var declared := OutputTypes(implementation.outputs);
    if result.outcome.Outputs? && result.outcome.ports.Keys == declared.Keys {
      WriteKeepsMemo(called, here, declared, result.outcome.ports, Sorted(declared.Keys));
    }
  }

  lemma RegisteredMemo(sc: Setting, inst: Instance, path: Path, external: map<Slot, Value>, n: Node, run: Run)
    requires n.Registered?
    ensures MemoUnder(run.memo, RunRegistered(sc, inst, path, external, n, run).memo, path + [n.id])
  {
    hide Gather, Invoke;
    var resolution := sc.catalog.Resolve(n.typeId, n.version);
    if resolution.Resolved? {
      var gathered := Gather(Wiring(inst.Edges(), external, path), run.store, n.id, Wants(resolution.implementation.inputs));
      if gathered.Inputs? {
        InvokeMemo(sc, resolution.implementation, n, path, inst.ParamsOf(n.id), gathered.values, run);
      }
    }
  }

  /** A node writes the memo only under its own path. */
  lemma {:induction false} NodeMemo(sc: Setting, inst: Instance, path: Path, external: map<Slot, Value>, id: NodeId, run: Run)
    requires Runnable(sc.plan, inst, path) && id in inst.Ids()
    ensures MemoUnder(run.memo, ExecNode(sc, inst, path, external, id, run).memo, path + [id])
    decreases inst, 1, 0
  {
    hide RunRegistered, Publish, Gather, ExecNodes;
    var n := NodeOf(inst.Nodes(), id);
    if n.Registered? {
      RegisteredMemo(sc, inst, path, external, n, run);
    } else {
      var child, here := inst.children[id], path + [id];
      var gathered := Gather(Wiring(inst.Edges(), external, path), run.store, id, ExposedWants(child.definition.exposedInputs));
      if gathered.Inputs? {
        NodesMemo(sc, child, here, gathered.values, sc.plan(here, child.definition.graph), run);
        PublishKeepsMemo(ExecGraph(sc, child, here, gathered.values, run), here, child.definition.exposedOutputs);
      }
    }
  }

  lemma {:induction false} NodesMemo(sc: Setting, inst: Instance, path: Path, external: map<Slot, Value>, order: seq<NodeId>, run: Run)
    requires Runnable(sc.plan, inst, path) && forall id :: id in order ==> id in inst.Ids()
    ensures MemoBelow(run.memo, ExecNodes(sc, inst, path, external, order, run).memo, path)
    decreases inst, 2, |order|
  {
    hide ExecNode, Runnable, MemoUnder;
    if order != [] {
      var front, id := order[..|order| - 1], order[|order| - 1];
      var before := ExecNodes(sc, inst, path, external, front, run);
      NodesMemo(sc, inst, path, external, front, run);
      if before.failure.None? {
        NodeMemo(sc, inst, path, external, id, before);
        MemoSteps(run.memo, before.memo, ExecNode(sc, inst, path, external, id, before).memo, path, id);
      }
    }
  }
}
