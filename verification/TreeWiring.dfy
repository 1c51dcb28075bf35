/** Why the component trees that resolution accepts are well wired: from the checks of each definition to the wiring of
    every instance. */
module TreeWiring {
  import opened Closure
  import opened Collections
  import opened Cycles
  import opened DefinitionChecks
  import opened Diagnostics
  import opened Documents
  import opened Evaluator
  import opened Instantiation
  import opened Planning
  import opened PortWiring
  import opened Typing
  import opened Validation

  /* ---- from checks to wiring ---- */

  lemma TableMatches(cat: Catalog, inst: Instance, defs: map<NodeId, Definition>, id: NodeId)
    requires id in inst.Ids()
    requires var n := NodeOf(inst.Nodes(), id);
      if n.Registered? then cat.Resolve(n.typeId, n.version).Resolved?
      else id in inst.children && id in defs && defs[id] == inst.children[id].definition
    ensures Get(Tables(cat, defs, inst.Nodes()).outputs, id) == Some(OutputTable(cat, inst, id))
    ensures Get(Tables(cat, defs, inst.Nodes()).inputs, id) == Some(InputTable(cat, inst, id))
  {
  }

  /** The tables describe every node of the instance. */
  ghost predicate Describes(cat: Catalog, inst: Instance, t: PortTables) {
    forall id :: id in inst.Ids() ==> Get(t.outputs, id) == Some(OutputTable(cat, inst, id)) && Get(t.inputs, id) == Some(InputTable(cat, inst, id))
  }

  ghost predicate CollectsFeeds(inst: Instance, connected: set<Slot>) {
    connected == Targets(inst.Edges()) + Slots(inst.definition.exposedInputs)
  }

  lemma ConnectedIsFed(inst: Instance, connected: set<Slot>, node: NodeId, port: PortName)
    requires CollectsFeeds(inst, connected) && (node, port) in connected
    ensures Fed(inst, node, port)
  {
    var s: Slot := (node, port);
    if s in Targets(inst.Edges()) {
      var i :| 0 <= i < |inst.Edges()| && Target(inst.Edges()[i]) == s;
      var e := inst.Edges()[i];
      assert e in inst.Edges() && e.dst == node && e.dstPort == port;
    } else {
      var ports := inst.definition.exposedInputs;
      var i :| 0 <= i < |ports| && SlotOf(ports[i]) == s;
      var e := ports[i];
      assert e in ports && e.node == node && e.port == port;
    }
  }

  lemma RequiredIsReady(cat: Catalog, inst: Instance, connected: set<Slot>, n: Node)
    requires CollectsFeeds(inst, connected) && n.Registered? && cat.Resolve(n.typeId, n.version).Resolved?
    requires UnfedRequired(cat, connected, n) == {}
    ensures RegisteredReady(cat, inst, n)
  {
    hide Fed, CollectsFeeds;
    var i := cat.Resolve(n.typeId, n.version).implementation;
    forall p | p in i.inputs && p.required ensures Fed(inst, n.id, p.name) {
      assert (n.id, p.name) !in connected ==> Fault(RequiredInputUnconnected, p.name) in UnfedRequired(cat, connected, n);
      ConnectedIsFed(inst, connected, n.id, p.name);
    }
  }

  lemma EdgeIsTyped(cat: Catalog, inst: Instance, t: PortTables, e: Edge)
    requires Describes(cat, inst, t) && Within(EdgePairs(inst.Edges()), inst.Ids()) && e in inst.Edges() && EdgeFits(t, e)
    ensures EdgeTyped(cat, inst, e)
  {
    hide OutputTable, InputTable;
    assert (e.src, e.dst) in EdgePairs(inst.Edges());
  }

  lemma ExposuresTyped(cat: Catalog, inst: Instance, t: PortTables)
    requires Describes(cat, inst, t)
    requires forall id :: id !in inst.Ids() ==> Get(t.outputs, id).None? && Get(t.inputs, id).None?
    requires forall e :: e in inst.definition.exposedInputs ==> InputExposureFits(t, e)
    requires forall e :: e in inst.definition.exposedOutputs ==> OutputExposureFits(t, e)
    ensures forall e :: e in inst.definition.exposedInputs ==> InputExposureTyped(cat, inst, e)
    ensures forall e :: e in inst.definition.exposedOutputs ==> OutputExposureTyped(cat, inst, e)
  {
    hide OutputTable, InputTable;
    forall e | e in inst.definition.exposedInputs ensures InputExposureTyped(cat, inst, e) {
      assert InputExposureFits(t, e);
      assert Get(t.inputs, e.node).Some?;
    }
    forall e | e in inst.definition.exposedOutputs ensures OutputExposureTyped(cat, inst, e) {
      assert OutputExposureFits(t, e);
      assert Get(t.outputs, e.node).Some?;
    }
  }

  ghost predicate ChildrenReady(inst: Instance, connected: set<Slot>) {
    forall id :: id in ComponentIds(inst) ==> ChildReadyAt(inst, connected, id)
  }

  ghost predicate ChildReadyAt(inst: Instance, connected: set<Slot>, id: NodeId) {
    && id in inst.children
    && DistinctNames(inst.children[id].definition.exposedInputs) && DistinctNames(inst.children[id].definition.exposedOutputs)
    && forall e :: e in inst.children[id].definition.exposedInputs ==> (id, e.name) in connected
  }

  /** What the checks of one graph add up to. */
  lemma GraphWiredFrom(cat: Catalog, inst: Instance, t: PortTables, connected: set<Slot>)
    requires UniqueIds(inst.Nodes()) && Within(EdgePairs(inst.Edges()), inst.Ids()) && Acyclic(EdgePairs(inst.Edges()))
    requires Describes(cat, inst, t) && CollectsFeeds(inst, connected)
    requires forall id :: id !in inst.Ids() ==> Get(t.outputs, id).None? && Get(t.inputs, id).None?
    requires forall e :: e in inst.Edges() ==> EdgeFits(t, e)
    requires forall e :: e in inst.definition.exposedInputs ==> InputExposureFits(t, e)
    requires forall e :: e in inst.definition.exposedOutputs ==> OutputExposureFits(t, e)
    requires forall n :: n in inst.Nodes() && n.Registered? ==>
      cat.Resolve(n.typeId, n.version).Resolved? && UnfedRequired(cat, connected, n) == {}
    requires ChildrenReady(inst, connected)
    ensures GraphWired(cat, inst)
  {
    hide Describes, CollectsFeeds, EdgeFits, InputExposureFits, OutputExposureFits, UnfedRequired, UniqueIds, Within, Acyclic, DistinctNames;
    hide RegisteredReady, EdgeTyped, InputExposureTyped, OutputExposureTyped, Fed;
    forall e | e in inst.Edges() ensures EdgeTyped(cat, inst, e) {
      EdgeIsTyped(cat, inst, t, e);
    }
    ExposuresTyped(cat, inst, t);
    forall n | n in inst.Nodes() && n.Registered? ensures RegisteredReady(cat, inst, n) {
      RequiredIsReady(cat, inst, connected, n);
    }
    forall id | id in ComponentIds(inst) ensures ComponentReady(inst, id) {
      assert ChildReadyAt(inst, connected, id);
      forall e | e in inst.children[id].definition.exposedInputs ensures Fed(inst, id, e.name) {
        ConnectedIsFed(inst, connected, id, e.name);
      }
    }
  }

  /* ---- one definition ---- */

  lemma NamesDistinct(ports: seq<ExposedPort>)
    requires Distinct(PortNames(ports))
    ensures DistinctNames(ports)
  {
    forall i, j | 0 <= i < j < |ports| ensures ports[i].name != ports[j].name {
      assert PortNames(ports)[i] != PortNames(ports)[j];
    }
  }

  lemma ExposuresDistinct(cat: Catalog, fetched: Definitions, d: Definition)
    requires SemanticFaults(cat, fetched, d) == {}
    ensures DistinctNames(d.exposedInputs) && DistinctNames(d.exposedOutputs)
  {
    hide NodeTypeFaults, DuplicateNameFaults, InputExposureFaults, OutputExposureFaults, ExposedParamFaults, WiringFaults, RequiredFaults;
    hide PortNames, ParamNames, Tables, NestedDefinitions, DistinctNames, Distinct;
    assert DuplicateExposures(d) == {};
    NamesNone(DuplicateExposedPort, PortNames(d.exposedInputs));
    NamesNone(DuplicateExposedPort, PortNames(d.exposedOutputs));
    NamesDistinct(d.exposedInputs);
    NamesDistinct(d.exposedOutputs);
  }

  /** Clean layers, one by one. */
  lemma SemanticParts(cat: Catalog, fetched: Definitions, d: Definition)
    requires SemanticFaults(cat, fetched, d) == {}
    ensures var t := TablesIn(cat, fetched, d);
      && NodeTypeFaults(cat, d.graph.nodes) == {}
      && InputExposureFaults(t, Targets(d.graph.edges), d.exposedInputs) == {}
      && OutputExposureFaults(t, d.exposedOutputs) == {}
      && WiringFaults(t, d.graph.nodes, d.graph.edges, Slots(d.exposedInputs)) == {}
      && RequiredFaults(cat, Targets(d.graph.edges) + Slots(d.exposedInputs), d.graph.nodes) == {}
  {
    hide NodeTypeFaults, DuplicateExposures, InputExposureFaults, OutputExposureFaults, ExposedParamFaults, WiringFaults, RequiredFaults;
    hide Tables, NestedDefinitions, Targets, Slots;
  }

  lemma AllTablesMatch(cat: Catalog, inst: Instance, defs: map<NodeId, Definition>)
    requires forall n :: n in inst.Nodes() && n.Registered? ==> cat.Resolve(n.typeId, n.version).Resolved?
    requires forall id :: id in ComponentIds(inst) ==> id in inst.children && id in defs && defs[id] == inst.children[id].definition
    ensures Describes(cat, inst, Tables(cat, defs, inst.Nodes()))
    ensures forall id :: id !in inst.Ids() ==>
      Get(Tables(cat, defs, inst.Nodes()).outputs, id).None? && Get(Tables(cat, defs, inst.Nodes()).inputs, id).None?
  {
    hide OutputTable, InputTable, Tables;
    forall id | id in inst.Ids()
      ensures Get(Tables(cat, defs, inst.Nodes()).outputs, id) == Some(OutputTable(cat, inst, id))
      ensures Get(Tables(cat, defs, inst.Nodes()).inputs, id) == Some(InputTable(cat, inst, id))
    {
      TableMatches(cat, inst, defs, id);
    }
  }

  lemma EdgesFit(cat: Catalog, inst: Instance, t: PortTables)
    requires Describes(cat, inst, t) && Within(EdgePairs(inst.Edges()), inst.Ids()) && EdgesPortFaults(t, inst.Edges()) == {}
    ensures forall e :: e in inst.Edges() ==> EdgeFits(t, e)
  {
    hide OutputTable, InputTable, EdgesPortFaults, EdgeFits;
    forall e | e in inst.Edges() ensures EdgeFits(t, e) {
      assert (e.src, e.dst) in EdgePairs(inst.Edges());
      EdgesPortNone(t, inst.Edges(), e);
      EdgePortsNone(t, e);
    }
  }

  lemma ExposedAreConnected(cat: Catalog, inst: Instance, t: PortTables, connected: set<Slot>, id: NodeId)
    requires Describes(cat, inst, t) && id in ComponentIds(inst) && id in inst.children
    requires ExposedFaults(t, connected, inst.Nodes()) == {}
    ensures forall e :: e in inst.children[id].definition.exposedInputs ==> (id, e.name) in connected
  {
    hide ExposedFaults;
    ExposedNone(t, connected, inst.Nodes());
    var n := NodeOf(inst.Nodes(), id);
    assert UnfedExposed(t, connected, n) == {};
    var ports := inst.children[id].definition.exposedInputs;
    forall e | e in ports ensures (id, e.name) in connected {
      var k :| 0 <= k < |ports| && ports[k] == e;
      assert e.name in InputTable(cat, inst, id);
      assert (id, e.name) !in connected ==> Fault(RequiredInputUnconnected, e.name) in UnfedExposed(t, connected, n);
    }
  }

  /** Every definition of the closure passed its checks. */
  ghost predicate AllClean(cat: Catalog, fetched: Definitions) {
    forall k :: k in fetched ==> SemanticFaults(cat, fetched, fetched[k]) == {}
  }

  lemma InstanceGraphWired(cat: Catalog, fetched: Definitions, key: ComponentKey, provided: Params)
    requires SoundClosure(fetched) && AllClean(cat, fetched) && key in fetched
    ensures GraphWired(cat, Instantiate(fetched, key, provided))
  {
    hide SemanticFaults, NodeTypeFaults, InputExposureFaults, OutputExposureFaults, WiringFaults, RequiredFaults, EdgesPortFaults, ExposedFaults;
    hide Describes, Tables, NestedDefinitions, UnfedRequired, GraphWired, DistinctNames, KeyedByIdentity, Acyclic, UniqueIds, Targets, Slots;
    hide Height, EffectiveParams, EdgeFits, InputExposureFits, OutputExposureFits;
    var inst := Instantiate(fetched, key, provided);
    var d := fetched[key];
    SemanticParts(cat, fetched, d);
    NodeTypesNone(cat, d.graph.nodes);
    ChildDefinitions(fetched, key, provided);
    var defs := NestedDefinitions(d.refs, fetched, d.graph.nodes);
    AllTablesMatch(cat, inst, defs);
    var t := TablesIn(cat, fetched, d);
    var connected := Targets(d.graph.edges) + Slots(d.exposedInputs);
    WiringNone(t, d.graph.nodes, d.graph.edges, Slots(d.exposedInputs));
    EdgesFit(cat, inst, t);
    InputExposuresNone(t, Targets(d.graph.edges), d.exposedInputs);
    OutputExposuresNone(t, d.exposedOutputs);
    RequiredNone(cat, connected, d.graph.nodes);
    forall id | id in ComponentIds(inst) ensures ChildReadyAt(inst, connected, id) {
      var nested := KeyOfNested(fetched, key, id);
      ExposuresDistinct(cat, fetched, fetched[nested]);
      ExposedAreConnected(cat, inst, t, connected, id);
    }
    GraphWiredFrom(cat, inst, t, connected);
  }

  lemma ChildDefinitions(fetched: Definitions, key: ComponentKey, provided: Params)
    requires SoundClosure(fetched) && key in fetched
    ensures var inst := Instantiate(fetched, key, provided);
      var defs := NestedDefinitions(fetched[key].refs, fetched, fetched[key].graph.nodes);
      forall id :: id in ComponentIds(inst) ==>
        id in inst.children && id in defs && defs[id] == inst.children[id].definition
        && inst.children[id].definition == fetched[KeyOfNested(fetched, key, id)]
  {
    hide SoundClosure, EffectiveParams, Height;
    var inst := Instantiate(fetched, key, provided);
    var defs := NestedDefinitions(fetched[key].refs, fetched, fetched[key].graph.nodes);
    forall id | id in ComponentIds(inst)
      ensures id in inst.children && id in defs && defs[id] == inst.children[id].definition
      ensures inst.children[id].definition == fetched[KeyOfNested(fetched, key, id)]
    {
      var nested := KeyOfNested(fetched, key, id);
      assert Get(defs, id) == Some(fetched[nested]);
    }
  }

  /** Resolution accepts only well-wired component trees. */
  lemma {:induction false} InstanceWired(cat: Catalog, fetched: Definitions, key: ComponentKey, provided: Params)
    requires SoundClosure(fetched) && AllClean(cat, fetched) && key in fetched
    ensures WellWired(cat, Instantiate(fetched, key, provided))
    decreases Height(fetched, key)
  {
    hide AllClean, GraphWired, SoundClosure, Height, EffectiveParams;
    InstanceGraphWired(cat, fetched, key, provided);
    var inst := Instantiate(fetched, key, provided);
    forall id | id in ComponentIds(inst) ensures id in inst.children && WellWired(cat, inst.children[id]) {
      InstanceWired(cat, fetched, KeyOfNested(fetched, key, id), inst.params[id]);
    }
  }
}
