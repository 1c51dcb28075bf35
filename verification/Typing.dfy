/** Type soundness and progress of strategy execution: on a well-wired hierarchy a run can only fail inside a node. */
module Typing {
  import opened Collections
  import opened Cycles
  import opened Diagnostics
  import opened Documents
  import opened Evaluator
  import opened Frames
  import opened Planning

  /* ---- the static discipline that pre-flight establishes ---- */

  function OutputTable(cat: Catalog, inst: Instance, id: NodeId): map<PortName, PortType>
    requires id in inst.Ids()
  {
    var n := NodeOf(inst.Nodes(), id);
    if n.Registered? then
      (match cat.Resolve(n.typeId, n.version) case Resolved(i) => OutputTypes(i.outputs) case _ => map[])
    else if id in inst.children then ExposedTypes(inst.children[id].definition.exposedOutputs)
    else map[]
  }

  function InputTable(cat: Catalog, inst: Instance, id: NodeId): map<PortName, PortType>
    requires id in inst.Ids()
  {
    var n := NodeOf(inst.Nodes(), id);
    if n.Registered? then
      (match cat.Resolve(n.typeId, n.version) case Resolved(i) => InputTypes(i.inputs) case _ => map[])
    else if id in inst.children then ExposedTypes(inst.children[id].definition.exposedInputs)
    else map[]
  }

  /** Something feeds the port: an edge, or an exposure of the enclosing component. */
  ghost predicate Fed(inst: Instance, node: NodeId, port: PortName) {
    (exists e :: e in inst.Edges() && e.dst == node && e.dstPort == port) || Exposed(inst.definition, node, port)
  }

  ghost predicate Exposed(d: Definition, node: NodeId, port: PortName) {
    exists e :: e in d.exposedInputs && e.node == node && e.port == port
  }

  ghost predicate DistinctNames(ports: seq<ExposedPort>) {
    forall i, j :: 0 <= i < j < |ports| ==> ports[i].name != ports[j].name
  }

  ghost predicate EdgeTyped(cat: Catalog, inst: Instance, e: Edge) {
    && e.src in inst.Ids() && e.dst in inst.Ids()
    && e.srcPort in OutputTable(cat, inst, e.src) && e.dstPort in InputTable(cat, inst, e.dst)
    && IsCompatible(OutputTable(cat, inst, e.src)[e.srcPort], InputTable(cat, inst, e.dst)[e.dstPort])
  }

  ghost predicate InputExposureTyped(cat: Catalog, inst: Instance, e: ExposedPort) {
    && e.node in inst.Ids() && e.port in InputTable(cat, inst, e.node)
    && IsCompatible(e.portType, InputTable(cat, inst, e.node)[e.port])
  }

  ghost predicate OutputExposureTyped(cat: Catalog, inst: Instance, e: ExposedPort) {
    && e.node in inst.Ids() && e.port in OutputTable(cat, inst, e.node)
    && IsCompatible(OutputTable(cat, inst, e.node)[e.port], e.portType)
  }

  ghost predicate RegisteredReady(cat: Catalog, inst: Instance, n: Node)
    requires n.Registered?
  {
    match cat.Resolve(n.typeId, n.version)
    case Resolved(i) => forall p :: p in i.inputs && p.required ==> Fed(inst, n.id, p.name)
    case _ => false
  }

  ghost predicate ComponentReady(inst: Instance, id: NodeId) {
    && id in inst.children
    && DistinctNames(inst.children[id].definition.exposedInputs)
    && DistinctNames(inst.children[id].definition.exposedOutputs)
    && forall e :: e in inst.children[id].definition.exposedInputs ==> Fed(inst, id, e.name)
  }

  /** One graph is well wired: edges and exposures connect existing ports of compatible types, and whatever
      must be fed is fed. */
  ghost predicate GraphWired(cat: Catalog, inst: Instance) {
    && UniqueIds(inst.Nodes())
    && Within(EdgePairs(inst.Edges()), inst.Ids())
    && Acyclic(EdgePairs(inst.Edges()))
    && (forall e :: e in inst.Edges() ==> EdgeTyped(cat, inst, e))
    && (forall e :: e in inst.definition.exposedInputs ==> InputExposureTyped(cat, inst, e))
    && (forall e :: e in inst.definition.exposedOutputs ==> OutputExposureTyped(cat, inst, e))
    && (forall n :: n in inst.Nodes() && n.Registered? ==> RegisteredReady(cat, inst, n))
    && (forall id :: id in ComponentIds(inst) ==> ComponentReady(inst, id))
  }

  /** The whole hierarchy is. */
  ghost predicate WellWired(cat: Catalog, inst: Instance)
    decreases inst
  {
    GraphWired(cat, inst)
    && forall id :: id in ComponentIds(inst) ==> id in inst.children && WellWired(cat, inst.children[id])
  }

  /** A well-wired hierarchy can be planned: `topological_order` never raises on it. */
  lemma {:induction false} WellWiredIsRunnable(cat: Catalog, inst: Instance, path: Path)
    requires WellWired(cat, inst)
    ensures Runnable(LeastPlan, inst, path)
    decreases inst
  {
    AcyclicPlanIsTopological(inst.Ids(), EdgePairs(inst.Edges()));
    forall id | id in ComponentIds(inst) ensures id in inst.children && Runnable(LeastPlan, inst.children[id], path + [id]) {
      WellWiredIsRunnable(cat, inst.children[id], path + [id]);
    }
  }

  /* ---- what a run keeps ---- */

  /** A node was handed values compatible with its declared inputs, and every required one. */
  ghost predicate WellTypedCall(cat: Catalog, c: Invocation) {
    match cat.Resolve(c.typeId, c.version)
    case Resolved(i) => InputsMatch(i.inputs, c.inputs)
    case _ => false
  }

  ghost predicate InputsMatch(ports: seq<InputPort>, inputs: map<PortName, Value>) {
    && (forall p :: p in ports && p.required ==> p.name in inputs)
    && forall name :: name in inputs ==>
         name in InputTypes(ports) && IsCompatible(PortTypeOf(inputs[name]), InputTypes(ports)[name])
  }

  predicate NodeFault(d: Diagnostic) {
    d.code == NodeExecutionFailed || d.code == WrongOutputPorts || d.code == WrongOutputType
  }

  /** The run has not failed outside a node, and every delivery so far was well typed. */
  ghost predicate Sound(cat: Catalog, run: Run) {
    (run.failure.Some? ==> NodeFault(run.failure.value)) && forall c :: c in run.calls ==> WellTypedCall(cat, c)
  }

  /** The node's declared outputs are stored, at types compatible with the declaration. */
  ghost predicate Delivered(cat: Catalog, inst: Instance, path: Path, store: Store, id: NodeId)
    requires id in inst.Ids()
  {
    forall port :: port in OutputTable(cat, inst, id) ==>
      (path + [id], port) in store && IsCompatible(PortTypeOf(store[(path + [id], port)]), OutputTable(cat, inst, id)[port])
  }

  ghost predicate ExternalTyped(cat: Catalog, inst: Instance, external: map<Slot, Value>) {
    && (forall e :: e in inst.definition.exposedInputs ==> (e.node, e.port) in external)
    && forall slot :: slot in external ==>
         slot.0 in inst.Ids() && slot.1 in InputTable(cat, inst, slot.0)
         && IsCompatible(PortTypeOf(external[slot]), InputTable(cat, inst, slot.0)[slot.1])
  }

  /** Every fed input of the node has a value, and every value is compatible with the declaration. */
  ghost predicate InputsTyped(cat: Catalog, inst: Instance, w: Wiring, store: Store, id: NodeId)
    requires id in inst.Ids()
  {
    forall port :: port in InputTable(cat, inst, id) ==> InputTyped(cat, inst, w, store, id, port)
  }

  ghost predicate InputTyped(cat: Catalog, inst: Instance, w: Wiring, store: Store, id: NodeId, port: PortName)
    requires id in inst.Ids() && port in InputTable(cat, inst, id)
  {
    match InputValue(w, store, id, port)
    case Some(v) => IsCompatible(PortTypeOf(v), InputTable(cat, inst, id)[port])
    case None => !Fed(inst, id, port)
  }

  /* ---- orders ---- */

  ghost predicate SourcesIn(inst: Instance, id: NodeId, done: seq<NodeId>) {
    forall e :: e in inst.Edges() && e.dst == id ==> e.src in done
  }

  /** In a topological order the sources of a node come before it. */
  lemma SourcesEarlier(inst: Instance, order: seq<NodeId>, k: nat)
    requires IsTopological(inst.Ids(), EdgePairs(inst.Edges()), order) && Within(EdgePairs(inst.Edges()), inst.Ids())
    requires k < |order|
    ensures SourcesIn(inst, order[k], order[..k])
  {
    forall e | e in inst.Edges() && e.dst == order[k] ensures e.src in order[..k] {
      assert (e.src, e.dst) in EdgePairs(inst.Edges());
      assert e.src in order;
      var j :| 0 <= j < |order| && order[j] == e.src;
      assert Feeds(EdgePairs(inst.Edges()), order[j], order[k]);
      assert j < k;
      assert order[..k][j] == e.src;
    }
  }

  /* ---- inputs ---- */

  lemma SourceTyped(cat: Catalog, inst: Instance, path: Path, external: map<Slot, Value>, store: Store, done: seq<NodeId>, id: NodeId, port: PortName)
    requires GraphWired(cat, inst) && ExternalTyped(cat, inst, external)
    requires id in inst.Ids() && SourcesIn(inst, id, done) && port in InputTable(cat, inst, id)
    requires forall d :: d in done ==> d in inst.Ids() && Delivered(cat, inst, path, store, d)
    ensures InputTyped(cat, inst, Wiring(inst.Edges(), external, path), store, id, port)
  {
    hide OutputTable, InputTable, RegisteredReady, ComponentReady;
    var source := SourceOf(inst.Edges(), id, port);
    if source.Some? {
      var e := Edge(source.value.0, source.value.1, id, port);
      assert EdgeTyped(cat, inst, e);
      assert Delivered(cat, inst, path, store, e.src);
      assert (path + [e.src], e.srcPort) in store;
      CompatibleTransitive(PortTypeOf(store[(path + [e.src], e.srcPort)]), OutputTable(cat, inst, e.src)[e.srcPort], InputTable(cat, inst, id)[port]);
    } else if (id, port) !in external {
      assert forall e :: e in inst.definition.exposedInputs && e.node == id && e.port == port ==> (e.node, e.port) in external;
      assert !Exposed(inst.definition, id, port);
    }
  }

  lemma AllInputsTyped(cat: Catalog, inst: Instance, path: Path, external: map<Slot, Value>, store: Store, done: seq<NodeId>, id: NodeId)
    requires GraphWired(cat, inst) && ExternalTyped(cat, inst, external)
    requires id in inst.Ids() && SourcesIn(inst, id, done)
    requires forall d :: d in done ==> d in inst.Ids() && Delivered(cat, inst, path, store, d)
    ensures InputsTyped(cat, inst, Wiring(inst.Edges(), external, path), store, id)
  {
    hide GraphWired, ExternalTyped, InputTyped, InputTable, Delivered;
    forall port | port in InputTable(cat, inst, id) ensures InputTyped(cat, inst, Wiring(inst.Edges(), external, path), store, id, port) {
      SourceTyped(cat, inst, path, external, store, done, id, port);
    }
  }

  /** The want at the slot supplied the value. */
  ghost predicate Supplies<K>(w: Wiring, store: Store, node: NodeId, wants: seq<Want<K>>, slot: K, v: Value) {
    exists k :: 0 <= k < |wants| && wants[k].slot == slot && InputValue(w, store, node, wants[k].port) == Some(v)
  }

  ghost predicate Available<K>(w: Wiring, store: Store, node: NodeId, want: Want<K>) {
    want.required ==> InputValue(w, store, node, want.port).Some?
  }

  /** Assembly succeeds exactly when every required input has a value; it hands over what is there and no more. */
  lemma {:induction false} GatherIs<K>(w: Wiring, store: Store, node: NodeId, wants: seq<Want<K>>)
    ensures Gather(w, store, node, wants).Inputs? <==> forall k :: 0 <= k < |wants| ==> Available(w, store, node, wants[k])
    ensures Gather(w, store, node, wants).Inputs? ==> forall slot :: slot in Gather(w, store, node, wants).values ==>
      Supplies(w, store, node, wants, slot, Gather(w, store, node, wants).values[slot])
    ensures Gather(w, store, node, wants).Inputs? ==> forall k :: 0 <= k < |wants| ==>
      (InputValue(w, store, node, wants[k].port).Some? ==> wants[k].slot in Gather(w, store, node, wants).values)
  {
    hide InputValue;
    if wants != [] {
      var n := |wants| - 1;
      var front, want := wants[..n], wants[n];
      GatherIs(w, store, node, front);
      assert forall k :: 0 <= k < n ==> front[k] == wants[k];
      var before := Gather(w, store, node, front);
      if before.Inputs? {
        assert forall k :: 0 <= k < n ==> Available(w, store, node, wants[k]);
        var value := InputValue(w, store, node, want.port);
        var result := Gather(w, store, node, wants);
        if result.Inputs? {
          forall slot | slot in result.values ensures Supplies(w, store, node, wants, slot, result.values[slot]) {
            if slot == want.slot && value.Some? {
              assert wants[n].slot == slot;
            } else {
              assert Supplies(w, store, node, front, slot, before.values[slot]);
              var k :| 0 <= k < |front| && front[k].slot == slot && InputValue(w, store, node, front[k].port) == Some(before.values[slot]);
              assert wants[k].slot == slot;
            }
          }
        } else {
          assert !Available(w, store, node, wants[n]);
        }
      } else {
        var k :| 0 <= k < |front| && !Available(w, store, node, front[k]);
        assert !Available(w, store, node, wants[k]);
      }
    }
  }

  /* ---- registered nodes ---- */

  lemma RegisteredInputs(cat: Catalog, inst: Instance, w: Wiring, store: Store, n: Node)
    requires n.Registered? && n.id in inst.Ids() && NodeOf(inst.Nodes(), n.id) == n
    requires RegisteredReady(cat, inst, n) && InputsTyped(cat, inst, w, store, n.id)
    ensures var ports := cat.Resolve(n.typeId, n.version).implementation.inputs;
      var gathered := Gather(w, store, n.id, Wants(ports));
      gathered.Inputs? && InputsMatch(ports, gathered.values)
  {
    hide InputValue, Gather, InputTypes, Fed;
    var ports := cat.Resolve(n.typeId, n.version).implementation.inputs;
    var wants := Wants(ports);
    GatherIs(w, store, n.id, wants);
    forall k | 0 <= k < |wants| ensures Available(w, store, n.id, wants[k]) {
      assert ports[k] in ports;
      assert InputTyped(cat, inst, w, store, n.id, ports[k].name);
    }
    var values := Gather(w, store, n.id, wants).values;
    forall name | name in values ensures name in InputTypes(ports) && IsCompatible(PortTypeOf(values[name]), InputTypes(ports)[name]) {
      var k :| 0 <= k < |wants| && wants[k].slot == name && InputValue(w, store, n.id, wants[k].port) == Some(values[name]);
      assert InputTyped(cat, inst, w, store, n.id, ports[k].name);
    }
    forall p | p in ports && p.required ensures p.name in values {
      var k :| 0 <= k < |ports| && ports[k] == p;
      assert Available(w, store, n.id, wants[k]);
    }
  }

  /** The stored prefix of outputs has exactly the declared types; nothing but a wrong type can stop it. */
  lemma {:induction false} WriteOutputsTyped(run: Run, here: Path, declared: map<PortName, PortType>, ports: map<PortName, Produced>, names: seq<PortName>)
    requires ports.Keys == declared.Keys && forall n :: n in names ==> n in declared
    requires run.failure.None?
    ensures var r := WriteOutputs(run, here, declared, ports, names);
      && r.calls == run.calls && (r.failure.Some? ==> NodeFault(r.failure.value))
      && (r.failure.None? ==> forall n :: n in names ==> (here, n) in r.store && PortTypeOf(r.store[(here, n)]) == declared[n])
  {
    if names != [] {
      WriteOutputsTyped(run, here, declared, ports, names[..|names| - 1]);
      assert forall n :: n in names ==> n in names[..|names| - 1] || n == names[|names| - 1];
    }
  }

  lemma CallAdded(cat: Catalog, run: Run, called: Run, call: Invocation)
    requires Sound(cat, run) && run.failure.None? && called.failure.None? && called.calls == run.calls + [call]
    requires cat.Resolve(call.typeId, call.version).Resolved? && InputsMatch(cat.Resolve(call.typeId, call.version).implementation.inputs, call.inputs)
    ensures Sound(cat, called)
    ensures forall r: Run :: r.calls == called.calls && (r.failure.Some? ==> NodeFault(r.failure.value)) ==> Sound(cat, r)
  {
    hide InputsMatch;
    assert WellTypedCall(cat, call);
    assert forall c :: c in called.calls ==> c in run.calls || c == call;
  }

  lemma CalledAdds(sc: Setting, n: Node, path: Path, params: Params, inputs: map<PortName, Value>, result: NodeResult, run: Run)
    requires n.Registered?
    ensures var called := Called(sc, n, path, params, inputs, result, run);
      called.failure == run.failure && called.calls == run.calls + [Invocation(path + [n.id], n.typeId, n.version, params, inputs)]
  {
  }

  lemma InvokeSound(cat: Catalog, sc: Setting, inst: Instance, path: Path, n: Node, inputs: map<PortName, Value>, run: Run)
    requires sc.catalog == cat && Sound(cat, run) && run.failure.None?
    requires n.Registered? && n.id in inst.Ids() && NodeOf(inst.Nodes(), n.id) == n
    requires cat.Resolve(n.typeId, n.version).Resolved? && InputsMatch(cat.Resolve(n.typeId, n.version).implementation.inputs, inputs)
    ensures var r := Invoke(sc, cat.Resolve(n.typeId, n.version).implementation, n, path, inst.ParamsOf(n.id), inputs, run);
      Sound(cat, r) && (r.failure.None? ==> Delivered(cat, inst, path, r.store, n.id))
  {
    hide WriteOutputs, InputsMatch, OutputTypes, NodeIds, Called, Sound;
    var implementation := cat.Resolve(n.typeId, n.version).implementation;
    var here, params := path + [n.id], inst.ParamsOf(n.id);
    var result := implementation.evaluate(sc.context.Invoked(here, params, inputs));
    var called := Called(sc, n, path, params, inputs, result, run);
    CalledAdds(sc, n, path, params, inputs, result, run);
    CallAdded(cat, run, called, Invocation(here, n.typeId, n.version, params, inputs));
    var declared := OutputTypes(implementation.outputs);
    assert OutputTable(cat, inst, n.id) == declared;
    if result.outcome.Outputs? && result.outcome.ports.Keys == declared.Keys {
      WriteOutputsTyped(called, here, declared, result.outcome.ports, Sorted(declared.Keys));
    }
  }

  lemma RegisteredSound(cat: Catalog, sc: Setting, inst: Instance, path: Path, external: map<Slot, Value>, n: Node, run: Run)
    requires sc.catalog == cat && Sound(cat, run) && run.failure.None?
    requires n.Registered? && n.id in inst.Ids() && NodeOf(inst.Nodes(), n.id) == n && RegisteredReady(cat, inst, n)
    requires InputsTyped(cat, inst, Wiring(inst.Edges(), external, path), run.store, n.id)
    ensures var r := RunRegistered(sc, inst, path, external, n, run);
      Sound(cat, r) && (r.failure.None? ==> Delivered(cat, inst, path, r.store, n.id))
  {
    hide Invoke, Gather, Sound, Delivered, InputsTyped;
    var w := Wiring(inst.Edges(), external, path);
    RegisteredInputs(cat, inst, w, run.store, n);
    var implementation := cat.Resolve(n.typeId, n.version).implementation;
    InvokeSound(cat, sc, inst, path, n, Gather(w, run.store, n.id, Wants(implementation.inputs)).values, run);
  }

  /* ---- components ---- */

  lemma {:induction false} ExposedTypeAt(ports: seq<ExposedPort>, k: nat)
    requires DistinctNames(ports) && k < |ports|
    ensures ports[k].name in ExposedTypes(ports) && ExposedTypes(ports)[ports[k].name] == ports[k].portType
  {
    var n := |ports| - 1;
    if k < n {
      assert ports[..n][k] == ports[k];
      ExposedTypeAt(ports[..n], k);
    }
  }

  lemma {:induction false} ExposedTypeNames(ports: seq<ExposedPort>, name: PortName)
    ensures name in ExposedTypes(ports) ==> exists k :: 0 <= k < |ports| && ports[k].name == name
  {
    if ports != [] {
      var n := |ports| - 1;
      var front := ports[..n];
      ExposedTypeNames(front, name);
      if name in ExposedTypes(ports) && name != ports[n].name {
        var k :| 0 <= k < |front| && front[k].name == name;
        assert ports[k].name == name;
      }
    }
  }

  ghost predicate FedAtType(w: Wiring, store: Store, id: NodeId, e: ExposedPort) {
    var value := InputValue(w, store, id, e.name);
    value.Some? && IsCompatible(PortTypeOf(value.value), e.portType)
  }

  lemma ExposuresFed(cat: Catalog, inst: Instance, w: Wiring, store: Store, id: NodeId)
    requires id in ComponentIds(inst) && ComponentReady(inst, id) && InputsTyped(cat, inst, w, store, id)
    ensures forall e :: e in inst.children[id].definition.exposedInputs ==> FedAtType(w, store, id, e)
  {
    hide InputValue, Fed;
    var ports := inst.children[id].definition.exposedInputs;
    forall e | e in ports ensures FedAtType(w, store, id, e) {
      var k :| 0 <= k < |ports| && ports[k] == e;
      ExposedTypeAt(ports, k);
      assert InputTyped(cat, inst, w, store, id, e.name);
      assert Fed(inst, id, e.name);
    }
  }

  /** What a component node is handed satisfies the exposures of its definition. */
  lemma HandedOver(cat: Catalog, child: Instance, w: Wiring, store: Store, id: NodeId)
    requires forall e :: e in child.definition.exposedInputs ==> FedAtType(w, store, id, e) && InputExposureTyped(cat, child, e)
    ensures var gathered := Gather(w, store, id, ExposedWants(child.definition.exposedInputs));
      gathered.Inputs? && ExternalTyped(cat, child, gathered.values)
  {
    hide InputValue, Gather, InputTable, IsCompatible, NodeIds;
    var ports := child.definition.exposedInputs;
    var wants := ExposedWants(ports);
    GatherIs(w, store, id, wants);
    forall k | 0 <= k < |wants| ensures Available(w, store, id, wants[k]) {
      assert FedAtType(w, store, id, ports[k]);
    }
    var values := Gather(w, store, id, wants).values;
    forall slot: Slot | slot in values
      ensures slot.0 in child.Ids() && slot.1 in InputTable(cat, child, slot.0)
      ensures IsCompatible(PortTypeOf(values[slot]), InputTable(cat, child, slot.0)[slot.1])
    {
      assert Supplies(w, store, id, wants, slot, values[slot]);
      var k :| 0 <= k < |wants| && wants[k].slot == slot && InputValue(w, store, id, wants[k].port) == Some(values[slot]);
      var e := ports[k];
      assert e in ports;
      assert FedAtType(w, store, id, e) && InputExposureTyped(cat, child, e);
      CompatibleTransitive(PortTypeOf(values[slot]), e.portType, InputTable(cat, child, slot.0)[slot.1]);
    }
    forall e | e in ports ensures (e.node, e.port) in values {
      var k :| 0 <= k < |ports| && ports[k] == e;
      assert FedAtType(w, store, id, ports[k]);
      assert wants[k].slot == (e.node, e.port);
    }
  }

  lemma ComponentInputs(cat: Catalog, inst: Instance, w: Wiring, store: Store, id: NodeId)
    requires id in ComponentIds(inst) && ComponentReady(inst, id) && GraphWired(cat, inst.children[id])
    requires InputsTyped(cat, inst, w, store, id)
    ensures var gathered := Gather(w, store, id, ExposedWants(inst.children[id].definition.exposedInputs));
      gathered.Inputs? && ExternalTyped(cat, inst.children[id], gathered.values)
  {
    hide InputsTyped, DistinctNames, Fed, ExternalTyped, Gather, FedAtType, InputExposureTyped;
    ExposuresFed(cat, inst, w, store, id);
    HandedOver(cat, inst.children[id], w, store, id);
  }

  ghost predicate Published(store: Store, here: Path, exposed: seq<ExposedPort>) {
    forall k :: 0 <= k < |exposed| ==> (here, exposed[k].name) in store
                                       && IsCompatible(PortTypeOf(store[(here, exposed[k].name)]), exposed[k].portType)
  }

  /** Publication finds every exposed output, at a type compatible with its declaration. */
  lemma {:induction false} PublishTyped(cat: Catalog, child: Instance, run: Run, here: Path, exposed: seq<ExposedPort>)
    requires run.failure.None? && DistinctNames(exposed)
    requires forall e :: e in exposed ==> OutputExposureTyped(cat, child, e)
    requires forall d :: d in child.Ids() ==> Delivered(cat, child, here, run.store, d)
    ensures var r := Publish(run, here, exposed);
      r.failure.None? && r.calls == run.calls && Published(r.store, here, exposed)
  {
    hide OutputTable;
    if exposed != [] {
      var n := |exposed| - 1;
      var front, e := exposed[..n], exposed[n];
      PublishTyped(cat, child, run, here, front);
      var before := Publish(run, here, front);
      PublishFrame(run, here, front);
      assert e in exposed;
      assert OutputExposureTyped(cat, child, e) && Delivered(cat, child, here, run.store, e.node);
      var source: Address := (here + [e.node], e.port);
      assert source.0 != here;
      assert Get(before.store, source) == Get(run.store, source);
      CompatibleTransitive(PortTypeOf(run.store[source]), OutputTable(cat, child, e.node)[e.port], e.portType);
      forall k | 0 <= k < n ensures (here, exposed[k].name) in Publish(run, here, exposed).store
        && IsCompatible(PortTypeOf(Publish(run, here, exposed).store[(here, exposed[k].name)]), exposed[k].portType)
      {
        assert front[k] == exposed[k];
      }
    }
  }

  lemma PublishedDelivers(cat: Catalog, inst: Instance, path: Path, id: NodeId, store: Store)
    requires id in ComponentIds(inst) && id in inst.children
    requires DistinctNames(inst.children[id].definition.exposedOutputs)
    requires Published(store, path + [id], inst.children[id].definition.exposedOutputs)
    ensures Delivered(cat, inst, path, store, id)
  {
    var exposed := inst.children[id].definition.exposedOutputs;
    forall port | port in OutputTable(cat, inst, id)
      ensures (path + [id], port) in store && IsCompatible(PortTypeOf(store[(path + [id], port)]), OutputTable(cat, inst, id)[port])
    {
      ExposedTypeNames(exposed, port);
      var k :| 0 <= k < |exposed| && exposed[k].name == port;
      ExposedTypeAt(exposed, k);
    }
  }

  lemma DeliveredStays(cat: Catalog, inst: Instance, path: Path, s: Store, t: Store, d: NodeId, x: NodeId)
    requires d in inst.Ids() && Delivered(cat, inst, path, s, d) && d != x && OnlyUnder(s, t, path + [x])
    ensures Delivered(cat, inst, path, t, d)
  {
    hide OutputTable;
    forall port | port in OutputTable(cat, inst, d)
      ensures (path + [d], port) in t && t[(path + [d], port)] == s[(path + [d], port)]
    {
      var a: Address := (path + [d], port);
      if path + [x] <= a.0 {
        UnderIsBelow(path, x, a.0);
      }
      assert Get(s, a) == Get(t, a);
    }
  }

  /* ---- the theorem ---- */

  lemma {:induction false} NodeSound(sc: Setting, inst: Instance, path: Path, external: map<Slot, Value>, done: seq<NodeId>, id: NodeId, run: Run)
    requires WellWired(sc.catalog, inst) && Runnable(sc.plan, inst, path) && ExternalTyped(sc.catalog, inst, external)
    requires id in inst.Ids() && SourcesIn(inst, id, done) && Sound(sc.catalog, run) && run.failure.None?
    requires forall d :: d in done ==> d in inst.Ids() && Delivered(sc.catalog, inst, path, run.store, d)
    ensures var r := ExecNode(sc, inst, path, external, id, run);
      Sound(sc.catalog, r) && (r.failure.None? ==> Delivered(sc.catalog, inst, path, r.store, id))
    decreases inst, 1, 0
  {
    hide RunRegistered, Sound, Delivered, Publish, Gather, ExecNodes, InputsTyped, ExternalTyped, GraphWired, RegisteredReady, ComponentReady;
    AllInputsTyped(sc.catalog, inst, path, external, run.store, done, id);
    var n := NodeOf(inst.Nodes(), id);
    if n.Registered? {
      NodeReady(sc.catalog, inst, n);
      RegisteredSound(sc.catalog, sc, inst, path, external, n, run);
    } else {
      ChildReady(sc.catalog, inst, id);
      var child, here := inst.children[id], path + [id];
      var w := Wiring(inst.Edges(), external, path);
      ComponentInputs(sc.catalog, inst, w, run.store, id);
      var values := Gather(w, run.store, id, ExposedWants(child.definition.exposedInputs)).values;
      GraphSound(sc, child, here, values, run);
      var nested := ExecGraph(sc, child, here, values, run);
      if nested.failure.None? {
        ChildExposures(sc.catalog, inst, id);
        PublishTyped(sc.catalog, child, nested, here, child.definition.exposedOutputs);
        var r := Publish(nested, here, child.definition.exposedOutputs);
        PublishedDelivers(sc.catalog, inst, path, id, r.store);
        SoundKept(sc.catalog, nested, r);
      }
    }
  }

  lemma NodeReady(cat: Catalog, inst: Instance, n: Node)
    requires GraphWired(cat, inst) && n in inst.Nodes() && n.Registered?
    ensures RegisteredReady(cat, inst, n)
  {
  }

  lemma ChildReady(cat: Catalog, inst: Instance, id: NodeId)
    requires WellWired(cat, inst) && id in ComponentIds(inst)
    ensures ComponentReady(inst, id) && id in inst.children && WellWired(cat, inst.children[id]) && GraphWired(cat, inst.children[id])
  {
  }

  lemma ChildExposures(cat: Catalog, inst: Instance, id: NodeId)
    requires ComponentReady(inst, id) && GraphWired(cat, inst.children[id])
    ensures DistinctNames(inst.children[id].definition.exposedOutputs)
    ensures forall e :: e in inst.children[id].definition.exposedOutputs ==> OutputExposureTyped(cat, inst.children[id], e)
  {
  }

  lemma SoundKept(cat: Catalog, before: Run, after: Run)
    requires Sound(cat, before) && after.calls == before.calls && after.failure.None?
    ensures Sound(cat, after)
  {
  }

  lemma {:induction false} NodesSound(sc: Setting, inst: Instance, path: Path, external: map<Slot, Value>, order: seq<NodeId>, run: Run)
    requires WellWired(sc.catalog, inst) && Runnable(sc.plan, inst, path) && ExternalTyped(sc.catalog, inst, external)
    requires order <= sc.plan(path, inst.definition.graph) && Sound(sc.catalog, run) && run.failure.None?
    requires forall id :: id in order ==> id in inst.Ids()
    ensures var r := ExecNodes(sc, inst, path, external, order, run);
      Sound(sc.catalog, r) && (r.failure.None? ==> forall d :: d in order ==> Delivered(sc.catalog, inst, path, r.store, d))
    decreases inst, 2, |order|
  {
    hide Sound, Delivered, ExecNode, ExternalTyped, OnlyUnder, GraphWired;
    if order != [] {
      var k := |order| - 1;
      var front, id := order[..k], order[k];
      NodesSound(sc, inst, path, external, front, run);
      var before := ExecNodes(sc, inst, path, external, front, run);
      if before.failure.None? {
        WiredEdges(sc.catalog, inst);
        SourcesEarlier(inst, sc.plan(path, inst.definition.graph), k);
        assert sc.plan(path, inst.definition.graph)[..k] == front;
        NodeSound(sc, inst, path, external, front, id, before);
        NodeFrame(sc, inst, path, external, id, before);
        var after := ExecNode(sc, inst, path, external, id, before);
        forall d | d in order ensures after.failure.None? ==> Delivered(sc.catalog, inst, path, after.store, d) {
          if d != id {
            assert d in front;
            DeliveredStays(sc.catalog, inst, path, before.store, after.store, d, id);
          }
        }
      }
    }
  }

  lemma WiredEdges(cat: Catalog, inst: Instance)
    requires GraphWired(cat, inst)
    ensures Within(EdgePairs(inst.Edges()), inst.Ids())
  {
  }

  /** Executing a well-wired graph on well-typed external inputs never fails outside a node, hands every node values
      compatible with its declaration, and on success has stored every declared output of every node. */
  lemma {:induction false} GraphSound(sc: Setting, inst: Instance, path: Path, external: map<Slot, Value>, run: Run)
    requires WellWired(sc.catalog, inst) && Runnable(sc.plan, inst, path) && ExternalTyped(sc.catalog, inst, external)
    requires Sound(sc.catalog, run) && run.failure.None?
    ensures var r := ExecGraph(sc, inst, path, external, run);
      Sound(sc.catalog, r) && (r.failure.None? ==> forall d :: d in inst.Ids() ==> Delivered(sc.catalog, inst, path, r.store, d))
    decreases inst, 3, 0
  {
    hide Sound, Delivered, ExternalTyped;
    var order := sc.plan(path, inst.definition.graph);
    NodesSound(sc, inst, path, external, order, run);
  }
}
