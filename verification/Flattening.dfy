/** The flat dataflow equations of a hierarchy: every input resolved through edges, exposed inputs and exposed
    outputs, to any depth, down to the outputs of registered nodes. */
module Flattening {
  import opened Collections
  import opened Diagnostics
  import opened Documents
  import opened Evaluator
  import opened Market

  /** Which leaf output feeds each port that an enclosing component exposes. */
  type Wires = map<Slot, Address>

  /** The exposure with a name: the last one. */
  function ExposedBy(ports: seq<ExposedPort>, name: PortName): (r: Option<ExposedPort>)
    ensures r.Some? ==> r.value in ports && r.value.name == name
  {
    if ports == [] then None
    else if ports[|ports| - 1].name == name then Some(ports[|ports| - 1])
    else ExposedBy(ports[..|ports| - 1], name)
  }

  /** The leaf output behind an output port of a node. */
  function FlatOutput(inst: Instance, path: Path, id: NodeId, port: PortName): Option<Address>
    requires id in inst.Ids()
    decreases inst
  {
    if NodeOf(inst.Nodes(), id).Registered? then Some((path + [id], port))
    else if id !in inst.children then None
    else
      var child := inst.children[id];
      var e := ExposedBy(child.definition.exposedOutputs, port);
      if e.Some? && e.value.node in child.Ids() then FlatOutput(child, path + [id], e.value.node, e.value.port) else None
  }

  /** The leaf output feeding an input port of a node. */
  function FlatInput(inst: Instance, path: Path, wires: Wires, id: NodeId, port: PortName): Option<Address> {
    match SourceOf(inst.Edges(), id, port)
    case Some(source) => if source.0 in inst.Ids() then FlatOutput(inst, path, source.0, source.1) else None
    case None => Get(wires, (id, port))
  }

  /** The wires that a component node passes on to the graph inside it. */
  function PassedOn(inst: Instance, path: Path, wires: Wires, id: NodeId, exposed: seq<ExposedPort>): Wires {
    if exposed == [] then map[]
    else
      var e := exposed[|exposed| - 1];
      var before := PassedOn(inst, path, wires, id, exposed[..|exposed| - 1]);
      var source := FlatInput(inst, path, wires, id, e.name);
      if source.Some? then before[(e.node, e.port) := source.value] else before
  }

  function ChildWires(inst: Instance, path: Path, wires: Wires, id: NodeId): Wires
    requires id in inst.children
  {
    PassedOn(inst, path, wires, id, inst.children[id].definition.exposedInputs)
  }

  /** A registered node somewhere in the hierarchy, with the leaf outputs that feed it. */
  datatype Leaf = Leaf(typeId: TypeId, version: Version, params: Params, feeds: map<PortName, Address>)

  function InputNames(cat: Catalog, typeId: TypeId, version: Version): set<PortName> {
    match cat.Resolve(typeId, version)
    case Resolved(i) => InputTypes(i.inputs).Keys
    case _ => {}
  }

  /** The leaf at a relative path. */
  function LeafAt(cat: Catalog, inst: Instance, path: Path, wires: Wires, rel: Path): Option<Leaf>
    decreases rel
  {
    if rel == [] || rel[0] !in inst.Ids() then None
    else
      var n := NodeOf(inst.Nodes(), rel[0]);
      if n.Registered? then
        (if |rel| == 1 then
           Some(Leaf(n.typeId, n.version, inst.ParamsOf(n.id),
                     map p | p in InputNames(cat, n.typeId, n.version) && FlatInput(inst, path, wires, n.id, p).Some?
                       :: FlatInput(inst, path, wires, n.id, p).value))
         else None)
      else if n.id !in inst.children then None
      else LeafAt(cat, inst.children[n.id], path + [n.id], ChildWires(inst, path, wires, n.id), rel[1..])
  }

  /** What the leaf is fed under V. */
  function FeedsOf(leaf: Leaf, v: Store): map<PortName, Value> {
    map p | p in leaf.feeds && leaf.feeds[p] in v :: v[leaf.feeds[p]]
  }

  /** The equation of one leaf: its stored outputs are what its type computes from what feeds it. */
  ghost predicate LeafSolved(cat: Catalog, context: Context, leaf: Leaf, q: Path, v: Store) {
    match cat.Resolve(leaf.typeId, leaf.version)
    case Resolved(i) =>
      && (forall p :: p in i.inputs && p.required ==> p.name in FeedsOf(leaf, v))
      && Computes(i.evaluate(context.Invoked(q, leaf.params, FeedsOf(leaf, v))).outcome, OutputTypes(i.outputs), q, v)
    case _ => false
  }

  ghost predicate Computes(outcome: NodeOutcome, declared: map<PortName, PortType>, q: Path, v: Store) {
    match outcome
    case Raised => false
    case Outputs(ports) =>
      && ports.Keys == declared.Keys
      && (forall name :: name in declared ==> Storable(ports[name], declared[name]))
      && forall name :: Get(v, (q, name)) == if name in declared then Some(ports[name].value) else None
  }

  /** V solves the equation of every leaf. */
  ghost predicate FlatSolution(cat: Catalog, context: Context, inst: Instance, path: Path, wires: Wires, v: Store) {
    forall rel :: LeafAt(cat, inst, path, wires, rel).Some? ==>
      LeafSolved(cat, context, LeafAt(cat, inst, path, wires, rel).value, path + rel, v)
  }

  /** The same for the leaves under one node. */
  ghost predicate SolvedUnder(cat: Catalog, context: Context, inst: Instance, path: Path, wires: Wires, v: Store, id: NodeId) {
    forall rel :: LeafAt(cat, inst, path, wires, rel).Some? && rel[0] == id ==>
      LeafSolved(cat, context, LeafAt(cat, inst, path, wires, rel).value, path + rel, v)
  }

  function Through(v: Store, a: Option<Address>): Option<Value> {
    if a.None? then None else Get(v, a.value)
  }

  /** The leaf output behind any address of the hierarchy. */
  function FlatAt(inst: Instance, path: Path, rel: Path, port: PortName): Option<Address>
    decreases rel
  {
    if rel == [] || rel[0] !in inst.Ids() then None
    else if |rel| == 1 then FlatOutput(inst, path, rel[0], port)
    else if NodeOf(inst.Nodes(), rel[0]).Registered? || rel[0] !in inst.children then None
    else FlatAt(inst.children[rel[0]], path + [rel[0]], rel[1..], port)
  }

  /** A leaf output is its own source. */
  lemma {:induction false} LeafIsItself(cat: Catalog, inst: Instance, path: Path, wires: Wires, rel: Path, port: PortName)
    requires LeafAt(cat, inst, path, wires, rel).Some?
    ensures rel != [] && FlatAt(inst, path, rel, port) == Some((path + rel, port))
    decreases rel
  {
    hide InputNames, FlatInput, PassedOn;
    if |rel| == 1 {
      assert rel == [rel[0]];
    } else {
      var id := rel[0];
      assert path + rel == (path + [id]) + rel[1..];
      LeafIsItself(cat, inst.children[id], path + [id], ChildWires(inst, path, wires, id), rel[1..], port);
    }
  }

  /** All that a store says about the subtree of one node is what V says through the flat sources. */
  ghost predicate Meaning(inst: Instance, path: Path, store: Store, v: Store, id: NodeId) {
    forall rel: Path, port :: rel != [] && rel[0] == id ==> MeansAt(inst, path, store, v, rel, port)
  }

  predicate MeansAt(inst: Instance, path: Path, store: Store, v: Store, rel: Path, port: PortName) {
    Get(store, (path + rel, port)) == Through(v, FlatAt(inst, path, rel, port))
  }

  /** The external inputs are what V says through the wires. */
  ghost predicate ExternalThrough(external: map<Slot, Value>, wires: Wires, v: Store) {
    forall slot: Slot :: Get(external, slot) == Through(v, Get(wires, slot))
  }
}
