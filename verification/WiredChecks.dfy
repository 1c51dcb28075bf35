/** The other half of what the checks establish: a well-wired graph gives them nothing to report. */
module WiredChecks {
  import opened Collections
  import opened DefinitionChecks
  import opened Diagnostics
  import opened Documents
  import opened Evaluator
  import opened Flattening
  import opened GroupedFlows
  import opened Grouping
  import opened PortWiring
  import opened Preflight
  import opened TreeWiring
  import opened Typing
  import opened Validation

  /** The tables say nothing wrong about any node; nodes that were not looked up are absent. */
  ghost predicate Agrees(cat: Catalog, x: Instance, t: PortTables) {
    forall id :: id in x.Ids() ==>
      && (Get(t.outputs, id).Some? ==> Get(t.outputs, id) == Some(OutputTable(cat, x, id)))
      && (Get(t.inputs, id).Some? ==> Get(t.inputs, id) == Some(InputTable(cat, x, id)))
  }

  lemma EdgeSilent(cat: Catalog, x: Instance, t: PortTables, components: set<NodeId>, e: Edge)
    requires Agrees(cat, x, t) && EdgeTyped(cat, x, e)
    ensures EdgePortFaults(t, e) == {} && TopEdgeFault(t, components, e) == {}
  {
    hide OutputTable, InputTable, IsCompatible;
  }

  lemma EdgesSilent(cat: Catalog, x: Instance, t: PortTables, components: set<NodeId>)
    requires GraphWired(cat, x) && Agrees(cat, x, t)
    ensures EdgesPortFaults(t, x.Edges()) == {} && TopEdgeFaults(t, components, x.Edges()) == {}
  {
    var edges := x.Edges();
    forall e | e in edges ensures EdgePortFaults(t, e) == {} && TopEdgeFault(t, components, e) == {} {
      assert EdgeTyped(cat, x, e);
      EdgeSilent(cat, x, t, components, e);
    }
    hide GraphWired, Agrees, EdgePortFaults, TopEdgeFault;
    assert forall i :: 0 <= i < |edges| ==> edges[i] in edges;
    UnionEmpty(seq(|edges|, i requires 0 <= i < |edges| => EdgePortFaults(t, edges[i])));
    UnionEmpty(seq(|edges|, i requires 0 <= i < |edges| => TopEdgeFault(t, components, edges[i])));
  }

  lemma FedIsConnected(x: Instance, connected: set<Slot>, node: NodeId, port: PortName)
    requires CollectsFeeds(x, connected) && Fed(x, node, port)
    ensures (node, port) in connected
  {
    if e :| e in x.Edges() && e.dst == node && e.dstPort == port {
      var i :| 0 <= i < |x.Edges()| && x.Edges()[i] == e;
      assert Target(x.Edges()[i]) == (node, port);
    } else {
      var ports := x.definition.exposedInputs;
      var e :| e in ports && e.node == node && e.port == port;
      var i :| 0 <= i < |ports| && ports[i] == e;
      assert SlotOf(ports[i]) == (node, port);
    }
  }

  lemma RegisteredSilent(cat: Catalog, x: Instance, connected: set<Slot>, n: Node)
    requires CollectsFeeds(x, connected) && n.Registered? && RegisteredReady(cat, x, n)
    ensures UnfedRequired(cat, connected, n) == {} && NodeTypeFault(cat, n) == {}
  {
    hide CollectsFeeds, Fed;
    var i := cat.Resolve(n.typeId, n.version).implementation;
    forall p | p in i.inputs && p.required ensures (n.id, p.name) in connected {
      FedIsConnected(x, connected, n.id, p.name);
    }
  }

  /** Types resolve, and every required input is connected. */
  lemma NodesSilent(cat: Catalog, x: Instance, connected: set<Slot>)
    requires GraphWired(cat, x) && CollectsFeeds(x, connected)
    ensures NodeTypeFaults(cat, x.Nodes()) == {} && RequiredFaults(cat, connected, x.Nodes()) == {}
  {
    var nodes := x.Nodes();
    forall n | n in nodes ensures UnfedRequired(cat, connected, n) == {} && NodeTypeFault(cat, n) == {} {
      if n.Registered? {
        assert RegisteredReady(cat, x, n);
        RegisteredSilent(cat, x, connected, n);
      }
    }
    hide GraphWired, CollectsFeeds, UnfedRequired, NodeTypeFault;
    RequiredNone(cat, connected, nodes);
    assert forall i :: 0 <= i < |nodes| ==> nodes[i] in nodes;
    UnionEmpty(seq(|nodes|, i requires 0 <= i < |nodes| => NodeTypeFault(cat, nodes[i])));
  }

  lemma ComponentSilent(cat: Catalog, x: Instance, t: PortTables, connected: set<Slot>, n: Node)
    requires UniqueIds(x.Nodes()) && n in x.Nodes() && n.Component? && ComponentReady(x, n.id)
    requires Agrees(cat, x, t) && CollectsFeeds(x, connected)
    ensures UnfedExposed(t, connected, n) == {}
  {
    hide CollectsFeeds, Fed, UniqueIds;
    NodeOfUnique(x.Nodes(), n);
    if Get(t.inputs, n.id).Some? {
      var ports := x.children[n.id].definition.exposedInputs;
      assert Get(t.inputs, n.id) == Some(InputTable(cat, x, n.id));
      forall p | p in ExposedTypes(ports) ensures (n.id, p) in connected {
        ExposedTypeNames(ports, p);
        var k :| 0 <= k < |ports| && ports[k].name == p;
        assert ports[k] in ports;
        FedIsConnected(x, connected, n.id, p);
      }
    }
  }

  lemma ComponentsSilent(cat: Catalog, x: Instance, t: PortTables, connected: set<Slot>)
    requires GraphWired(cat, x) && Agrees(cat, x, t) && CollectsFeeds(x, connected)
    ensures ExposedFaults(t, connected, x.Nodes()) == {}
  {
    var nodes := x.Nodes();
    forall n | n in nodes ensures UnfedExposed(t, connected, n) == {} {
      if n.Component? {
        NodeOfUnique(nodes, n);
        assert n.id in ComponentIds(x);
        assert ComponentReady(x, n.id);
        ComponentSilent(cat, x, t, connected, n);
      }
    }
    hide GraphWired, CollectsFeeds, UnfedExposed, Agrees;
    ExposedNone(t, connected, nodes);
  }

  lemma NoFanInSilent(edges: seq<Edge>)
    ensures NoFanIn(edges) <==> DuplicateTargets(edges) == {}
  {
    if NoFanIn(edges) {
      forall j | 0 <= j < |edges| ensures !TargetedBefore(edges, j) {
      }
    }
    if DuplicateTargets(edges) == {} {
      forall i, j | 0 <= i < j < |edges| ensures Target(edges[i]) != Target(edges[j]) {
        assert Target(edges[j]) !in DuplicateTargets(edges);
        assert !TargetedBefore(edges, j);
      }
    }
  }

  lemma WiringSilent(cat: Catalog, x: Instance, t: PortTables)
    requires GraphWired(cat, x) && NoFanIn(x.Edges()) && Agrees(cat, x, t)
    ensures WiringFaults(t, x.Nodes(), x.Edges(), Slots(x.definition.exposedInputs)) == {}
  {
    hide GraphWired, NoFanIn, Agrees, EdgesPortFaults, ExposedFaults, DuplicateTargets, Targets, Slots;
    NoFanInSilent(x.Edges());
    EdgesSilent(cat, x, t, {});
    ComponentsSilent(cat, x, t, Targets(x.Edges()) + Slots(x.definition.exposedInputs));
  }

  lemma ExposureSilent(cat: Catalog, x: Instance, t: PortTables, i: nat)
    requires Describes(cat, x, t) && i < |x.definition.exposedInputs| && InputExposureTyped(cat, x, x.definition.exposedInputs[i])
    requires DistinctSlots(x.definition.exposedInputs) && Slots(x.definition.exposedInputs) !! Targets(x.Edges())
    ensures InputExposureFault(t, Targets(x.Edges()), x.definition.exposedInputs, i) == {}
  {
    hide InputTable, OutputTable, IsCompatible, Targets;
    var exposed := x.definition.exposedInputs;
    assert SlotOf(exposed[i]) in Slots(exposed);
    assert forall j :: 0 <= j < i ==> SlotOf(exposed[j]) != SlotOf(exposed[i]);
  }

  /** Exposures of existing, compatible ports, none of them fed twice. */
  lemma ExposuresSilent(cat: Catalog, x: Instance, t: PortTables)
    requires GraphWired(cat, x) && Describes(cat, x, t)
    requires DistinctSlots(x.definition.exposedInputs) && Slots(x.definition.exposedInputs) !! Targets(x.Edges())
    ensures InputExposureFaults(t, Targets(x.Edges()), x.definition.exposedInputs) == {}
    ensures OutputExposureFaults(t, x.definition.exposedOutputs) == {}
  {
    var ins, outs := x.definition.exposedInputs, x.definition.exposedOutputs;
    assert forall e :: e in ins ==> InputExposureTyped(cat, x, e);
    assert forall e :: e in outs ==> OutputExposureTyped(cat, x, e);
    hide GraphWired, Targets, Slots, DistinctSlots, InputExposureTyped, InputExposureFault;
    forall i | 0 <= i < |ins| ensures InputExposureFault(t, Targets(x.Edges()), ins, i) == {} {
      ExposureSilent(cat, x, t, i);
    }
    UnionEmpty(seq(|ins|, i requires 0 <= i < |ins| => InputExposureFault(t, Targets(x.Edges()), ins, i)));
    hide InputTable, OutputTable, IsCompatible;
    forall e | e in outs ensures OutputExposureFits(t, e) {
      assert OutputExposureTyped(cat, x, e);
    }
    OutputExposuresNone(t, outs);
  }

  lemma NamesSilent(ports: seq<ExposedPort>)
    requires DistinctNames(ports)
    ensures DuplicateNameFaults(DuplicateExposedPort, PortNames(ports)) == {}
  {
    NamesNone(DuplicateExposedPort, PortNames(ports));
  }

  /** A well-wired definition without exposed parameters passes every registry check. */
  lemma WiredDefinitionIsClean(cat: Catalog, fetched: map<ComponentKey, Definition>, x: Instance)
    requires GraphWired(cat, x) && NoFanIn(x.Edges()) && x.definition.exposedParams == []
    requires DistinctNames(x.definition.exposedInputs) && DistinctNames(x.definition.exposedOutputs)
    requires DistinctSlots(x.definition.exposedInputs) && Slots(x.definition.exposedInputs) !! Targets(x.Edges())
    requires Describes(cat, x, TablesIn(cat, fetched, x.definition))
    ensures SemanticFaults(cat, fetched, x.definition) == {}
  {
    hide GraphWired, Describes, TablesIn, NoFanIn, DistinctNames, DistinctSlots, Targets, Slots;
    hide NodeTypeFaults, InputExposureFaults, OutputExposureFaults, WiringFaults, RequiredFaults, PortNames;
    var d, t := x.definition, TablesIn(cat, fetched, x.definition);
    assert Agrees(cat, x, t) by { DescribesAgrees(cat, x, t); }
    NodesSilent(cat, x, Targets(x.Edges()) + Slots(d.exposedInputs));
    NamesSilent(d.exposedInputs);
    NamesSilent(d.exposedOutputs);
    NamesNone(DuplicateExposedParam, ParamNames(d.exposedParams));
    ExposuresSilent(cat, x, t);
    WiringSilent(cat, x, t);
    ParamsSilent(NodeIds(d.graph.nodes), NestedDefinitions(d.refs, fetched, d.graph.nodes));
  }

  lemma ParamsSilent(ids: set<NodeId>, defs: map<NodeId, Definition>)
    ensures ExposedParamFaults(ids, defs, []) == {}
  {
    var none: seq<ExposedParam> := [];
    UnionEmpty(seq(|none|, i requires 0 <= i < |none| => ExposedParamFault(ids, defs, none[i])));
  }

  lemma DescribesAgrees(cat: Catalog, x: Instance, t: PortTables)
    requires Describes(cat, x, t)
    ensures Agrees(cat, x, t)
  {
    hide InputTable, OutputTable;
  }
}
