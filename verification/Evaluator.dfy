/** The meaning of executing a strategy graph: quantize/evaluator/evaluate.py, `_Executor`. A run threads the value
    store, the invocations made, the trace and the first failure; it takes the evaluation order as a parameter. */
module Evaluator {
  import opened Collections
  import opened Diagnostics
  import opened Documents
  import opened Market
  import opened Planning

  /** (node path, port): where an output value is stored. */
  type Address = (Path, PortName)
  type Store = map<Address, Value>

  /** (node, port) inside one graph. */
  type Slot = (NodeId, PortName)

  /** A resolved component instance; the document itself is the instance with no exposures. */
  datatype Instance = Instance(definition: Definition, params: map<NodeId, Params>, children: map<NodeId, Instance>)
  {
    function Nodes(): seq<Node> { definition.graph.nodes }
    function Edges(): seq<Edge> { definition.graph.edges }
    function Ids(): set<NodeId> { NodeIds(Nodes()) }
    function ParamsOf(id: NodeId): Params { if id in params then params[id] else map[] }
  }

  datatype Invocation = Invocation(path: Path, typeId: TypeId, version: Version, params: Params, inputs: map<PortName, Value>)
  datatype NodeEvent = NodeEvent(componentPath: Path, node: NodeId, emission: Emission)
  datatype Run = Run(store: Store, calls: seq<Invocation>, trace: seq<NodeEvent>, failure: Option<Diagnostic>, memo: Memo)
  {
    function Fail(code: Code, path: Path, subject: int): Run {
      this.(failure := Some(Diagnostic(code, path, subject)))
    }
    function Write(address: Address, value: Value): Run {
      this.(store := store[address := value])
    }
  }

  /** An order for each graph of the hierarchy. */
  type Planner = (Path, Graph) -> seq<NodeId>

  /** What one evaluation starts from: the as-of view, and the memo earlier evaluations left, if the run has one. */
  datatype Context = Context(view: DataView, memo: Option<Memo>)
  {
    /** A node sees its own part of the memo. Every path is invoked at most once in an evaluation, so nothing has touched
        that part since the evaluation started. */
    function Invoked(path: Path, params: Params, inputs: map<PortName, Value>): NodeInvocation {
      NodeInvocation(path, params, inputs, view, if memo.Some? then Some(CacheIn(memo.value, path)) else None)
    }

    /** Without a memo. */
    function Plain(): Context { this.(memo := None) }

    function Start(): Run { Run(map[], [], [], None, if memo.Some? then memo.value else map[]) }
  }

  /** What stays fixed during a run. */
  datatype Setting = Setting(catalog: Catalog, context: Context, plan: Planner)

  /** `topological_order` as a planner. */
  function LeastPlan(path: Path, g: Graph): seq<NodeId> {
    PlanFrom(NodeIds(g.nodes), EdgePairs(g.edges))
  }

  /** Every graph of the hierarchy is given a topological order of its nodes (its edges stay within them), and every
      component node has been resolved. */
  ghost predicate Runnable(plan: Planner, inst: Instance, path: Path)
    decreases inst
  {
    && UniqueIds(inst.Nodes())
    && Within(EdgePairs(inst.Edges()), inst.Ids())
    && IsTopological(inst.Ids(), EdgePairs(inst.Edges()), plan(path, inst.definition.graph))
    && forall id :: id in ComponentIds(inst) ==> id in inst.children && Runnable(plan, inst.children[id], path + [id])
  }

  function ComponentNodes(nodes: seq<Node>): (r: set<NodeId>)
    ensures forall id :: id in r <==> id in NodeIds(nodes) && NodeOf(nodes, id).Component?
  {
    set id | id in NodeIds(nodes) && NodeOf(nodes, id).Component?
  }

  function ComponentIds(inst: Instance): (r: set<NodeId>)
    ensures forall id :: id in r ==> id in inst.Ids() && NodeOf(inst.Nodes(), id).Component?
    ensures forall id :: id in inst.Ids() && NodeOf(inst.Nodes(), id).Component? ==> id in r
  {
    ComponentNodes(inst.Nodes())
  }

  /* ---- inputs ---- */

  /** How the inputs of one graph are fed: its edges, what its owner supplies, and where its outputs are stored. */
  datatype Wiring = Wiring(edges: seq<Edge>, external: map<Slot, Value>, path: Path)

  /** `_input_value`. */
  function InputValue(w: Wiring, store: Store, node: NodeId, port: PortName): Option<Value> {
    match SourceOf(w.edges, node, port)
    case Some(source) => Get(store, (w.path + [source.0], source.1))
    case None => Get(w.external, (node, port))
  }

  /** An input to assemble, and the key it is handed over under. */
  datatype Want<K> = Want(port: PortName, required: bool, slot: K)
  datatype Gathered<K> = Missing(port: PortName) | Inputs(values: map<K, Value>)

  /** In port order: stop at the first required input without a value, leave out optional ones. */
  function Gather<K>(w: Wiring, store: Store, node: NodeId, wants: seq<Want<K>>): Gathered<K> {
    if wants == [] then Inputs(map[])
    else
      var want := wants[|wants| - 1];
      var before := Gather(w, store, node, wants[..|wants| - 1]);
      if before.Missing? then before else GatherOne(before.values, want, InputValue(w, store, node, want.port))
  }

  function GatherOne<K>(values: map<K, Value>, want: Want<K>, value: Option<Value>): Gathered<K> {
    if value.Some? then Inputs(values[want.slot := value.value])
    else if want.required then Missing(want.port)
    else Inputs(values)
  }

  function Wants(ports: seq<InputPort>): seq<Want<PortName>> {
    seq(|ports|, i requires 0 <= i < |ports| => Want(ports[i].name, ports[i].required, ports[i].name))
  }

  /** Every exposed input is required, and is handed to the internal port it maps to. */
  function ExposedWants(ports: seq<ExposedPort>): seq<Want<Slot>> {
    seq(|ports|, i requires 0 <= i < |ports| => Want(ports[i].name, true, (ports[i].node, ports[i].port)))
  }

  /* ---- registered nodes ---- */

  /** The value a node may store under one declared port. */
  predicate Storable(produced: Produced, declared: PortType) {
    produced.Runtime? && PortTypeOf(produced.value) == declared
  }

  /** Outputs are stored in name order up to the first one that breaks its declaration. */
  function WriteOutputs(run: Run, here: Path, declared: map<PortName, PortType>, ports: map<PortName, Produced>, names: seq<PortName>): Run
    requires ports.Keys == declared.Keys && forall n :: n in names ==> n in declared
  {
    if names == [] then run
    else
      var name := names[|names| - 1];
      var before := WriteOutputs(run, here, declared, ports, names[..|names| - 1]);
      if before.failure.Some? then before
      else if Storable(ports[name], declared[name]) then before.Write((here, name), ports[name].value)
      else before.Fail(WrongOutputType, here, name)
  }

  function NodeEvents(path: Path, node: NodeId, emitted: seq<Emission>): seq<NodeEvent> {
    seq(|emitted|, i requires 0 <= i < |emitted| => NodeEvent(path, node, emitted[i]))
  }

  /** The invocation on record, with what the node traced and left in the memo. */
  function Called(sc: Setting, n: Node, path: Path, params: Params, inputs: map<PortName, Value>, result: NodeResult, run: Run): Run
    requires n.Registered?
  {
    var here := path + [n.id];
    run.(calls := run.calls + [Invocation(here, n.typeId, n.version, params, inputs)],
         trace := run.trace + NodeEvents(path, n.id, result.emitted),
         memo := if sc.context.memo.Some? then run.memo[here := result.cache] else run.memo)
  }

  function Invoke(sc: Setting, implementation: Implementation, n: Node, path: Path, params: Params, inputs: map<PortName, Value>, run: Run): Run
    requires n.Registered?
  {
    var here := path + [n.id];
    var result := implementation.evaluate(sc.context.Invoked(here, params, inputs));
    var called := Called(sc, n, path, params, inputs, result, run);
    match result.outcome
    case Raised => called.Fail(NodeExecutionFailed, here, n.typeId)
    case Outputs(ports) =>
      var declared := OutputTypes(implementation.outputs);
      if ports.Keys != declared.Keys then called.Fail(WrongOutputPorts, here, n.typeId)
      else WriteOutputs(called, here, declared, ports, Sorted(declared.Keys))
  }

  /** `_run_registered`. */
  function RunRegistered(sc: Setting, inst: Instance, path: Path, external: map<Slot, Value>, n: Node, run: Run): Run
    requires n.Registered?
  {
    match sc.catalog.Resolve(n.typeId, n.version)
    case Resolved(implementation) =>
      (match Gather(Wiring(inst.Edges(), external, path), run.store, n.id, Wants(implementation.inputs))
       case Missing(port) => run.Fail(MissingRuntimeInput, path + [n.id], port)
       case Inputs(values) => Invoke(sc, implementation, n, path, inst.ParamsOf(n.id), values, run))
    case _ => run.Fail(ImplementationUnavailable, path + [n.id], n.typeId)
  }

  /* ---- components and graphs ---- */

  /** Copy the exposed outputs out of the finished component graph. */
  function Publish(run: Run, here: Path, exposed: seq<ExposedPort>): Run {
    if exposed == [] then run
    else
      var e := exposed[|exposed| - 1];
      var before := Publish(run, here, exposed[..|exposed| - 1]);
      var value := Get(before.store, (here + [e.node], e.port));
      if before.failure.Some? then before
      else if value.Some? then before.Write((here, e.name), value.value)
      else before.Fail(MissingRuntimeInput, here, e.name)
  }

  /** `_run_component`. */
  ghost function RunComponent(sc: Setting, inst: Instance, path: Path, external: map<Slot, Value>, id: NodeId, run: Run): Run
    requires Runnable(sc.plan, inst, path) && id in ComponentIds(inst)
    decreases inst, 0, 0
  {
    var child, here := inst.children[id], path + [id];
    match Gather(Wiring(inst.Edges(), external, path), run.store, id, ExposedWants(child.definition.exposedInputs))
    case Missing(port) => run.Fail(MissingRuntimeInput, here, port)
    case Inputs(values) =>
      var nested := ExecGraph(sc, child, here, values, run);
      if nested.failure.Some? then nested else Publish(nested, here, child.definition.exposedOutputs)
  }

  ghost function ExecNode(sc: Setting, inst: Instance, path: Path, external: map<Slot, Value>, id: NodeId, run: Run): Run
    requires Runnable(sc.plan, inst, path) && id in inst.Ids()
    decreases inst, 1, 0
  {
    var n := NodeOf(inst.Nodes(), id);
    if n.Registered? then RunRegistered(sc, inst, path, external, n, run) else RunComponent(sc, inst, path, external, id, run)
  }

  /** The nodes of order, up to the first failure. */
  ghost function ExecNodes(sc: Setting, inst: Instance, path: Path, external: map<Slot, Value>, order: seq<NodeId>, run: Run): Run
    requires Runnable(sc.plan, inst, path) && forall id :: id in order ==> id in inst.Ids()
    decreases inst, 2, |order|
  {
    if order == [] then run
    else
      var before := ExecNodes(sc, inst, path, external, order[..|order| - 1], run);
      if before.failure.Some? then before else ExecNode(sc, inst, path, external, order[|order| - 1], before)
  }

  /** `execute_graph`. */
  ghost function ExecGraph(sc: Setting, inst: Instance, path: Path, external: map<Slot, Value>, run: Run): Run
    requires Runnable(sc.plan, inst, path)
    decreases inst, 3, 0
  {
    ExecNodes(sc, inst, path, external, sc.plan(path, inst.definition.graph), run)
  }
}
