/** The executor object: quantize/evaluator/evaluate.py, `_Executor`. */
module Execution {
  import opened Collections
  import opened Cycles
  import opened Diagnostics
  import opened Documents
  import opened Evaluator
  import opened Kahn
  import opened Frames
  import opened Market
  import opened Memos
  import opened Planning

  /** The setting of a real run: nodes are ordered by `topological_order`. */
  function Planned(catalog: Catalog, context: Context): Setting {
    Setting(catalog, context, LeastPlan)
  }

  /** At or below prefix the memo is still what it was at the start of the evaluation. */
  ghost predicate Unread(start: Option<Memo>, now: Memo, prefix: Path) {
    start.Some? ==> forall p: Path :: prefix <= p ==> Get(now, p) == Get(start.value, p)
  }

  ghost predicate UnreadBelow(start: Option<Memo>, now: Memo, prefix: Path) {
    start.Some? ==> forall p: Path :: prefix < p ==> Get(now, p) == Get(start.value, p)
  }

  lemma UnreadNode(start: Option<Memo>, now: Memo, path: Path, x: NodeId)
    ensures UnreadBelow(start, now, path) ==> Unread(start, now, path + [x])
    ensures Unread(start, now, path) ==> UnreadBelow(start, now, path)
    ensures Unread(start, now, path) && start.Some? ==> CacheIn(now, path) == CacheIn(start.value, path)
  {
    if UnreadBelow(start, now, path) && start.Some? {
      forall p: Path | path + [x] <= p ensures Get(now, p) == Get(start.value, p) {
        UnderIsBelow(path, x, p);
      }
    }
    if Unread(start, now, path) && start.Some? {
      assert path <= path;
      assert Get(now, path) == Get(start.value, path);
    }
  }

  /** What one node writes leaves the other nodes' parts as they were. */
  lemma StillUnread(start: Option<Memo>, m: Memo, n: Memo, path: Path, x: NodeId, y: NodeId)
    requires Unread(start, m, path + [y]) && MemoUnder(m, n, path + [x]) && x != y
    ensures Unread(start, n, path + [y])
  {
    if start.Some? {
      forall p: Path | path + [y] <= p ensures Get(n, p) == Get(start.value, p) {
        UnderIsBelow(path, y, p);
        if path + [x] <= p { UnderIsBelow(path, x, p); }
        assert Get(m, p) == Get(n, p);
      }
    }
  }

  lemma RunnableGraph(inst: Instance, path: Path)
    requires Runnable(LeastPlan, inst, path)
    ensures UniqueIds(inst.Nodes()) && Within(EdgePairs(inst.Edges()), inst.Ids()) && Acyclic(EdgePairs(inst.Edges()))
    ensures forall id :: id in PlanFrom(inst.Ids(), EdgePairs(inst.Edges())) ==> id in inst.Ids()
    ensures Distinct(PlanFrom(inst.Ids(), EdgePairs(inst.Edges())))
  {
    DistinctLength(PlanFrom(inst.Ids(), EdgePairs(inst.Edges())), inst.Ids());
    PlanCompleteIffAcyclic(inst.Ids(), EdgePairs(inst.Edges()));
  }

  lemma GatherStep<K>(w: Wiring, store: Store, node: NodeId, wants: seq<Want<K>>, i: nat)
    requires i < |wants|
    ensures Gather(w, store, node, wants[..i + 1]) == var before := Gather(w, store, node, wants[..i]);
      if before.Missing? then before else GatherOne(before.values, wants[i], InputValue(w, store, node, wants[i].port))
    ensures Gather(w, store, node, wants[..i + 1]).Missing? ==> Gather(w, store, node, wants) == Gather(w, store, node, wants[..i + 1])
    decreases |wants| - i
  {
    assert wants[..i + 1][..i] == wants[..i];
    if i + 1 == |wants| {
      assert wants[..i + 1] == wants;
    } else {
      GatherStep(w, store, node, wants, i + 1);
    }
  }

  lemma WriteStep(run: Run, here: Path, declared: map<PortName, PortType>, ports: map<PortName, Produced>, names: seq<PortName>, i: nat)
    requires ports.Keys == declared.Keys && forall n :: n in names ==> n in declared
    requires i < |names|
    ensures WriteOutputs(run, here, declared, ports, names[..i + 1]) == var before := WriteOutputs(run, here, declared, ports, names[..i]);
      if before.failure.Some? then before
      else if Storable(ports[names[i]], declared[names[i]]) then before.Write((here, names[i]), ports[names[i]].value)
      else before.Fail(WrongOutputType, here, names[i])
    ensures WriteOutputs(run, here, declared, ports, names[..i + 1]).failure.Some? ==>
      WriteOutputs(run, here, declared, ports, names) == WriteOutputs(run, here, declared, ports, names[..i + 1])
    decreases |names| - i
  {
    assert names[..i + 1][..i] == names[..i];
    assert names[i] in names;
    if i + 1 == |names| {
      assert names[..i + 1] == names;
    } else {
      WriteStep(run, here, declared, ports, names, i + 1);
    }
  }

  lemma PublishStep(run: Run, here: Path, exposed: seq<ExposedPort>, i: nat)
    requires i < |exposed|
    ensures Publish(run, here, exposed[..i + 1]) == var before := Publish(run, here, exposed[..i]);
      var value := Get(before.store, (here + [exposed[i].node], exposed[i].port));
      if before.failure.Some? then before
      else if value.Some? then before.Write((here, exposed[i].name), value.value)
      else before.Fail(MissingRuntimeInput, here, exposed[i].name)
    ensures Publish(run, here, exposed[..i + 1]).failure.Some? ==> Publish(run, here, exposed) == Publish(run, here, exposed[..i + 1])
    decreases |exposed| - i
  {
    assert exposed[..i + 1][..i] == exposed[..i];
    if i + 1 == |exposed| {
      assert exposed[..i + 1] == exposed;
    } else {
      PublishStep(run, here, exposed, i + 1);
    }
  }

  lemma ExecStep(sc: Setting, inst: Instance, path: Path, external: map<Slot, Value>, order: seq<NodeId>, run: Run, i: nat)
    requires Runnable(sc.plan, inst, path) && forall id :: id in order ==> id in inst.Ids()
    requires i < |order|
    ensures order[i] in inst.Ids()
    ensures ExecNodes(sc, inst, path, external, order[..i + 1], run) == var before := ExecNodes(sc, inst, path, external, order[..i], run);
      if before.failure.Some? then before else ExecNode(sc, inst, path, external, order[i], before)
    ensures ExecNodes(sc, inst, path, external, order[..i + 1], run).failure.Some? ==>
      ExecNodes(sc, inst, path, external, order, run) == ExecNodes(sc, inst, path, external, order[..i + 1], run)
    decreases |order| - i
  {
    hide ExecNode, Runnable;
    assert order[..i + 1][..i] == order[..i];
    var id := order[i];
    assert id in order;
    assert id in inst.Ids();
    if i + 1 == |order| {
      assert order[..i + 1] == order;
    } else {
      ExecStep(sc, inst, path, external, order, run, i + 1);
    }
  }

  ghost function MemoNow(memo: EvaluationMemo?): Option<Memo>
    reads memo
  {
    if memo == null then None else Some(memo.slots)
  }

  /** One run's execution state: the value store, the trace, and stop-on-first-failure. */
  class Executor {
    const catalog: Catalog
    const view: DataView
    const memo: EvaluationMemo?
    /** The memo as this evaluation found it. */
    ghost const start: Option<Memo>
    var store: Store
    var trace: seq<NodeEvent>
    ghost var calls: seq<Invocation>

    constructor (catalog: Catalog, view: DataView, memo: EvaluationMemo?)
      ensures this.catalog == catalog && this.view == view && this.memo == memo && start == MemoNow(memo)
      ensures Valid() && State() == Surroundings().Start() && UnreadBelow(start, State().memo, [])
    {
      this.catalog, this.view, this.memo, this.start := catalog, view, memo, MemoNow(memo);
      store, trace, calls := map[], [], [];
    }

    ghost predicate Valid() {
      memo == null <==> start.None?
    }

    ghost function Surroundings(): Context {
      Context(view, start)
    }

    ghost function State(): Run
      reads this, memo
    {
      Ended(None)
    }

    /** The run so far, ended by a failure if there is one. */
    ghost function Ended(failure: Option<Diagnostic>): Run
      reads this, memo
    {
      Run(store, calls, trace, failure, if memo == null then map[] else memo.slots)
    }

    method ExecuteGraph(inst: Instance, path: Path, external: map<Slot, Value>) returns (failure: Option<Diagnostic>)
      requires Valid() && Runnable(LeastPlan, inst, path) && UnreadBelow(start, State().memo, path)
      modifies this, if memo == null then {} else {memo}
      ensures memo != null ==> memo.highWater == old(memo.highWater)
      ensures Ended(failure) == ExecGraph(Planned(catalog, Surroundings()), inst, path, external, old(State()))
      decreases inst, 3
    {
      hide ExecNodes, ExecNode, Runnable, PlanFrom, Acyclic, Unread, UnreadBelow, MemoUnder;
      ghost var begun := State();
      ghost var sc := Planned(catalog, Surroundings());
      RunnableGraph(inst, path);
      var plan := TopologicalOrder(inst.Nodes(), inst.Edges());
      var order := plan.value;
      assert order == sc.plan(path, inst.definition.graph);
      NoneRun(sc, inst, path, external, order, begun);
      forall j | 0 <= j < |order| ensures Unread(start, State().memo, path + [order[j]]) {
        UnreadNode(start, State().memo, path, order[j]);
      }
      for i := 0 to |order|
        invariant memo != null ==> memo.highWater == old(memo.highWater)
        invariant State() == ExecNodes(sc, inst, path, external, order[..i], begun)
        invariant forall j :: i <= j < |order| ==> Unread(start, State().memo, path + [order[j]])
      {
        ExecStep(sc, inst, path, external, order, begun, i);
        ghost var before := State();
        NodeMemo(sc, inst, path, external, order[i], before);
        failure := ExecuteNode(inst, path, external, order[i]);
        if failure.Some? {
          return;
        }
        forall j | i + 1 <= j < |order| ensures Unread(start, State().memo, path + [order[j]]) {
          StillUnread(start, before.memo, State().memo, path, order[i], order[j]);
        }
      }
      assert order[..|order|] == order;
      return None;
    }

    method ExecuteNode(inst: Instance, path: Path, external: map<Slot, Value>, id: NodeId) returns (failure: Option<Diagnostic>)
      requires Valid() && Runnable(LeastPlan, inst, path) && id in inst.Ids() && Unread(start, State().memo, path + [id])
      modifies this, if memo == null then {} else {memo}
      ensures memo != null ==> memo.highWater == old(memo.highWater)
      ensures Ended(failure) == ExecNode(Planned(catalog, Surroundings()), inst, path, external, id, old(State()))
      decreases inst, 2
    {
      hide RunRegistered, RunComponent, Unread;
      var node := NodeOf(inst.Nodes(), id);
      if node.Registered? {
        failure := ExecuteRegistered(inst, path, external, node);
      } else {
        failure := ExecuteComponent(inst, path, external, id);
      }
    }

    static lemma NoneRun(sc: Setting, inst: Instance, path: Path, external: map<Slot, Value>, order: seq<NodeId>, run: Run)
      requires Runnable(sc.plan, inst, path) && forall id :: id in order ==> id in inst.Ids()
      ensures ExecNodes(sc, inst, path, external, order[..0], run) == run
    {
    }

    method Assemble<K>(w: Wiring, node: NodeId, wants: seq<Want<K>>) returns (r: Gathered<K>)
      ensures r == Gather(w, store, node, wants)
    {
      hide InputValue;
      var values: map<K, Value> := map[];
      for i := 0 to |wants|
        invariant Gather(w, store, node, wants[..i]) == Inputs(values)
      {
        GatherStep(w, store, node, wants, i);
        var value := InputValue(w, store, node, wants[i].port);
        if value.None? {
          if wants[i].required {
            return Missing(wants[i].port);
          }
        } else {
          values := values[wants[i].slot := value.value];
        }
      }
      assert wants[..|wants|] == wants;
      return Inputs(values);
    }

    method ExecuteRegistered(inst: Instance, path: Path, external: map<Slot, Value>, n: Node) returns (failure: Option<Diagnostic>)
      requires Valid() && n.Registered? && Unread(start, State().memo, path + [n.id])
      modifies this, if memo == null then {} else {memo}
      ensures memo != null ==> memo.highWater == old(memo.highWater)
      ensures Ended(failure) == RunRegistered(Planned(catalog, Surroundings()), inst, path, external, n, old(State()))
    {
      hide Gather, Invoke, Unread;
      var resolution := catalog.Resolve(n.typeId, n.version);
      if !resolution.Resolved? {
        return Some(Diagnostic(ImplementationUnavailable, path + [n.id], n.typeId));
      }
      var inputs := Assemble(Wiring(inst.Edges(), external, path), n.id, Wants(resolution.implementation.inputs));
      if inputs.Missing? {
        return Some(Diagnostic(MissingRuntimeInput, path + [n.id], inputs.port));
      }
      failure := Evaluate(resolution.implementation, n, path, inst.ParamsOf(n.id), inputs.values);
    }

    method Evaluate(implementation: Implementation, n: Node, path: Path, params: Params, inputs: map<PortName, Value>)
      returns (failure: Option<Diagnostic>)
      requires Valid() && n.Registered? && Unread(start, State().memo, path + [n.id])
      modifies this, if memo == null then {} else {memo}
      ensures memo != null ==> memo.highWater == old(memo.highWater)
      ensures Ended(failure) == Invoke(Planned(catalog, Surroundings()), implementation, n, path, params, inputs, old(State()))
    {
      hide WriteOutputs, OutputTypes, Storable, Unread, UnreadBelow;
      var here := path + [n.id];
      UnreadNode(start, State().memo, here, n.id);
      var cache := if memo == null then None else Some(CacheIn(memo.slots, here));
      var result := implementation.evaluate(NodeInvocation(here, params, inputs, view, cache));
      calls := calls + [Invocation(here, n.typeId, n.version, params, inputs)];
      trace := trace + NodeEvents(path, n.id, result.emitted);
      if memo != null {
        memo.Leave(here, result.cache);
      }
      if result.outcome.Raised? {
        return Some(Diagnostic(NodeExecutionFailed, here, n.typeId));
      }
      var declared := OutputTypes(implementation.outputs);
      if result.outcome.ports.Keys != declared.Keys {
        return Some(Diagnostic(WrongOutputPorts, here, n.typeId));
      }
      failure := Store(here, declared, result.outcome.ports);
    }

    method Store(here: Path, declared: map<PortName, PortType>, ports: map<PortName, Produced>) returns (failure: Option<Diagnostic>)
      requires ports.Keys == declared.Keys
      modifies this`store
      ensures Ended(failure) == WriteOutputs(old(State()), here, declared, ports, Sorted(declared.Keys))
    {
      hide Storable, Sorted;
      ghost var begun := State();
      var names := Sorted(declared.Keys);
      NoneWritten(begun, here, declared, ports, names);
      for i := 0 to |names|
        invariant State() == WriteOutputs(begun, here, declared, ports, names[..i])
      {
        WriteStep(begun, here, declared, ports, names, i);
        var name := names[i];
        assert name in names;
        if !Storable(ports[name], declared[name]) {
          return Some(Diagnostic(WrongOutputType, here, name));
        }
        StorableIsRuntime(ports[name], declared[name]);
        store := store[(here, name) := ports[name].value];
      }
      assert names[..|names|] == names;
      return None;
    }

    static lemma StorableIsRuntime(produced: Produced, declared: PortType)
      requires Storable(produced, declared)
      ensures produced.Runtime?
    {
    }

    static lemma NoneWritten(run: Run, here: Path, declared: map<PortName, PortType>, ports: map<PortName, Produced>, names: seq<PortName>)
      requires ports.Keys == declared.Keys && forall n :: n in names ==> n in declared
      ensures WriteOutputs(run, here, declared, ports, names[..0]) == run
    {
    }

    method ExecuteComponent(inst: Instance, path: Path, external: map<Slot, Value>, id: NodeId) returns (failure: Option<Diagnostic>)
      requires Valid() && Runnable(LeastPlan, inst, path) && id in ComponentIds(inst) && Unread(start, State().memo, path + [id])
      modifies this, if memo == null then {} else {memo}
      ensures memo != null ==> memo.highWater == old(memo.highWater)
      ensures Ended(failure) == RunComponent(Planned(catalog, Surroundings()), inst, path, external, id, old(State()))
      decreases inst, 1
    {
      hide Gather, ExecGraph, Publish, Unread, UnreadBelow;
      var child, here := inst.children[id], path + [id];
      UnreadNode(start, State().memo, here, id);
      var inputs := Assemble(Wiring(inst.Edges(), external, path), id, ExposedWants(child.definition.exposedInputs));
      if inputs.Missing? {
        return Some(Diagnostic(MissingRuntimeInput, here, inputs.port));
      }
      failure := ExecuteGraph(child, here, inputs.values);
      if failure.None? {
        failure := PublishOutputs(here, child.definition.exposedOutputs);
      }
    }

    method PublishOutputs(here: Path, exposed: seq<ExposedPort>) returns (failure: Option<Diagnostic>)
      modifies this`store
      ensures Ended(failure) == Publish(old(State()), here, exposed)
    {
      ghost var begun := State();
      for i := 0 to |exposed|
        invariant State() == Publish(begun, here, exposed[..i])
      {
        PublishStep(begun, here, exposed, i);
        var value := Get(store, (here + [exposed[i].node], exposed[i].port));
        if value.None? {
          return Some(Diagnostic(MissingRuntimeInput, here, exposed[i].name));
        }
        store := store[(here, exposed[i].name) := value.value];
      }
      assert exposed[..|exposed|] == exposed;
      return None;
    }
  }
}
