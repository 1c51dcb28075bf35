/** Which invocations an execution makes, and what they leave in the memo. */
module Invocations {
  import opened Collections
  import opened Diagnostics
  import opened Documents
  import opened Evaluator
  import opened Frames
  import opened Planning

  /** What a registered node is: its type and its effective parameters. */
  datatype Kind = Kind(typeId: TypeId, version: Version, params: Params)

  /** The registered node at a relative path. */
  function KindAt(inst: Instance, rel: Path): Option<Kind>
    decreases rel
  {
    if rel == [] || rel[0] !in inst.Ids() then None
    else
      var n := NodeOf(inst.Nodes(), rel[0]);
      if n.Registered? then (if |rel| == 1 then Some(Kind(n.typeId, n.version, inst.ParamsOf(n.id))) else None)
      else if n.id in inst.children then KindAt(inst.children[n.id], rel[1..])
      else None
  }

  /** The call invokes the registered node at its path, which is inside the graph at path. */
  ghost predicate CallInside(inst: Instance, path: Path, c: Invocation) {
    path < c.path && KindAt(inst, c.path[|path|..]) == Some(Kind(c.typeId, c.version, c.params))
  }

  /** Nothing is forgotten, and every new call is one of the node's own. */
  ghost predicate CallsAdded(inst: Instance, path: Path, id: NodeId, before: Run, after: Run) {
    before.calls <= after.calls
    && forall c :: c in after.calls && c !in before.calls ==> path + [id] <= c.path && CallInside(inst, path, c)
  }

  ghost predicate CallsAddedBelow(inst: Instance, path: Path, before: Run, after: Run) {
    before.calls <= after.calls
    && forall c :: c in after.calls && c !in before.calls ==> CallInside(inst, path, c)
  }

  /** What the invoked node leaves in its part of the memo. */
  ghost function Leaves(sc: Setting, c: Invocation): Option<Cache> {
    match sc.catalog.Resolve(c.typeId, c.version)
    case Resolved(i) => Some(i.evaluate(sc.context.Invoked(c.path, c.params, c.inputs)).cache)
    case _ => None
  }

  ghost predicate LeftByCall(sc: Setting, run: Run, p: Path) {
    exists c :: c in run.calls && c.path == p && p in run.memo && Leaves(sc, c) == Some(run.memo[p])
  }

  /** Every part of the memo is as the evaluation found it, or as an invocation at that path left it. */
  ghost predicate MemoAccounted(sc: Setting, start: Memo, run: Run) {
    forall p :: p in run.memo ==> (p in start && run.memo[p] == start[p]) || LeftByCall(sc, run, p)
  }

  lemma {:induction false} WriteKeeps(run: Run, here: Path, declared: map<PortName, PortType>, ports: map<PortName, Produced>, names: seq<PortName>)
    requires ports.Keys == declared.Keys && forall n :: n in names ==> n in declared
    ensures var r := WriteOutputs(run, here, declared, ports, names); r.calls == run.calls && r.memo == run.memo
  {
    if names != [] {
      WriteKeeps(run, here, declared, ports, names[..|names| - 1]);
    }
  }

  lemma {:induction false} PublishKeeps(run: Run, here: Path, exposed: seq<ExposedPort>)
    ensures var r := Publish(run, here, exposed); r.calls == run.calls && r.memo == run.memo
  {
    if exposed != [] {
      PublishKeeps(run, here, exposed[..|exposed| - 1]);
    }
  }

  lemma InvokeCalls(sc: Setting, implementation: Implementation, n: Node, path: Path, params: Params, inputs: map<PortName, Value>, run: Run)
    requires n.Registered?
    ensures var r := Invoke(sc, implementation, n, path, params, inputs, run);
      var call := Invocation(path + [n.id], n.typeId, n.version, params, inputs);
      && r.calls == run.calls + [call]
      && r.memo == if sc.context.memo.Some?
                   then run.memo[path + [n.id] := implementation.evaluate(sc.context.Invoked(path + [n.id], params, inputs)).cache]
                   else run.memo
  {
    hide WriteOutputs, OutputTypes;
    var here := path + [n.id];
    var result := implementation.evaluate(sc.context.Invoked(here, params, inputs));
    var called := Called(sc, n, path, params, inputs, result, run);
    var declared := OutputTypes(implementation.outputs);
    if result.outcome.Outputs? && result.outcome.ports.Keys == declared.Keys {
      WriteKeeps(called, here, declared, result.outcome.ports, Sorted(declared.Keys));
    }
  }

  lemma AccountedMore(sc: Setting, start: Memo, before: Run, after: Run, call: Invocation)
    requires MemoAccounted(sc, start, before) && after.calls == before.calls + [call]
    requires after.memo == before.memo || (Leaves(sc, call).Some? && after.memo == before.memo[call.path := Leaves(sc, call).value])
    ensures MemoAccounted(sc, start, after)
  {
    hide Leaves;
    forall p | p in after.memo && !(p in start && after.memo[p] == start[p]) ensures LeftByCall(sc, after, p) {
      if p in before.memo && before.memo[p] == after.memo[p] {
        var c :| c in before.calls && c.path == p && Leaves(sc, c) == Some(before.memo[p]);
        assert c in after.calls;
      } else {
        assert call in after.calls;
      }
    }
  }

  lemma RegisteredCalls(sc: Setting, inst: Instance, path: Path, external: map<Slot, Value>, n: Node, run: Run, start: Memo)
    requires n.Registered? && n.id in inst.Ids() && NodeOf(inst.Nodes(), n.id) == n && MemoAccounted(sc, start, run)
    ensures var r := RunRegistered(sc, inst, path, external, n, run);
      CallsAdded(inst, path, n.id, run, r) && MemoAccounted(sc, start, r)
  {
    hide Gather, Invoke, MemoAccounted;
    var resolution := sc.catalog.Resolve(n.typeId, n.version);
    var r := RunRegistered(sc, inst, path, external, n, run);
    if resolution.Resolved? {
      var gathered := Gather(Wiring(inst.Edges(), external, path), run.store, n.id, Wants(resolution.implementation.inputs));
      if gathered.Inputs? {
        var call := Invocation(path + [n.id], n.typeId, n.version, inst.ParamsOf(n.id), gathered.values);
        InvokeCalls(sc, resolution.implementation, n, path, inst.ParamsOf(n.id), gathered.values, run);
        AccountedMore(sc, start, run, r, call);
        assert call.path[|path|..] == [n.id];
        assert CallInside(inst, path, call);
      } else {
        FailKeeps(sc, start, run, r);
      }
    } else {
      FailKeeps(sc, start, run, r);
    }
  }

  lemma FailKeeps(sc: Setting, start: Memo, run: Run, r: Run)
    requires MemoAccounted(sc, start, run) && r.calls == run.calls && r.memo == run.memo
    ensures MemoAccounted(sc, start, r)
  {
    hide Leaves;
    forall p | p in r.memo && !(p in start && r.memo[p] == start[p]) ensures LeftByCall(sc, r, p) {
      assert LeftByCall(sc, run, p);
    }
  }

  lemma InsideChild(inst: Instance, path: Path, id: NodeId, c: Invocation)
    requires id in ComponentIds(inst) && id in inst.children && CallInside(inst.children[id], path + [id], c)
    ensures path + [id] <= c.path && CallInside(inst, path, c)
  {
    var rel := c.path[|path|..];
    assert c.path[..|path| + 1] == path + [id];
    assert rel[0] == id && rel[1..] == c.path[|path + [id]|..];
    assert c.path[..|path|] == (path + [id])[..|path|] == path;
  }

  lemma {:induction false} NodeCalls(sc: Setting, inst: Instance, path: Path, external: map<Slot, Value>, id: NodeId, run: Run, start: Memo)
    requires Runnable(sc.plan, inst, path) && id in inst.Ids() && MemoAccounted(sc, start, run)
    ensures var r := ExecNode(sc, inst, path, external, id, run);
      CallsAdded(inst, path, id, run, r) && MemoAccounted(sc, start, r)
    decreases inst, 1, 0
  {
    hide RunRegistered, Publish, Gather, ExecNodes, MemoAccounted, CallInside;
    var n := NodeOf(inst.Nodes(), id);
    if n.Registered? {
      RegisteredCalls(sc, inst, path, external, n, run, start);
    } else {
      var child, here := inst.children[id], path + [id];
      var r := RunComponent(sc, inst, path, external, id, run);
      assert r == ExecNode(sc, inst, path, external, id, run);
      var gathered := Gather(Wiring(inst.Edges(), external, path), run.store, id, ExposedWants(child.definition.exposedInputs));
      if gathered.Inputs? {
        NodesCalls(sc, child, here, gathered.values, sc.plan(here, child.definition.graph), run, start);
        var nested := ExecGraph(sc, child, here, gathered.values, run);
        PublishKeeps(nested, here, child.definition.exposedOutputs);
        FailKeeps(sc, start, nested, r);
        forall c | c in r.calls && c !in run.calls ensures path + [id] <= c.path && CallInside(inst, path, c) {
          InsideChild(inst, path, id, c);
        }
      } else {
        FailKeeps(sc, start, run, r);
      }
    }
  }

  lemma {:induction false} NodesCalls(sc: Setting, inst: Instance, path: Path, external: map<Slot, Value>, order: seq<NodeId>, run: Run, start: Memo)
    requires Runnable(sc.plan, inst, path) && (forall id :: id in order ==> id in inst.Ids()) && MemoAccounted(sc, start, run)
    ensures var r := ExecNodes(sc, inst, path, external, order, run);
      CallsAddedBelow(inst, path, run, r) && MemoAccounted(sc, start, r)
      && (forall c :: c in r.calls && c !in run.calls ==> exists id :: id in order && path + [id] <= c.path)
    decreases inst, 2, |order|
  {
    hide ExecNode, Runnable, MemoAccounted, CallInside;
    if order != [] {
      var front, id := order[..|order| - 1], order[|order| - 1];
      NodesCalls(sc, inst, path, external, front, run, start);
      var before := ExecNodes(sc, inst, path, external, front, run);
      if before.failure.None? {
        NodeCalls(sc, inst, path, external, id, before, start);
      }
      var r := ExecNodes(sc, inst, path, external, order, run);
      forall c | c in r.calls && c !in run.calls ensures exists x :: x in order && path + [x] <= c.path {
        if c in before.calls {
          var x :| x in front && path + [x] <= c.path;
          assert x in order;
        } else {
          assert id in order && path + [id] <= c.path;
        }
      }
    }
  }
}
