/** Document pre-flight: quantize/validation/semantic.py and quantize/evaluator/preflight.py. */
module Preflight {
  import opened Closure
  import opened Collections
  import opened Cycles
  import opened DefinitionChecks
  import opened Diagnostics
  import opened Documents
  import opened Evaluator
  import opened Instantiation
  import opened Kahn
  import opened Planning
  import opened PortWiring
  import opened Resolution
  import opened TreeWiring
  import opened Typing
  import opened Validation

  /* ---- semantic validation of the document's registered nodes ---- */

  function ParamFault(cat: Catalog, n: Node): Findings {
    if !n.Registered? then {}
    else
      match cat.Resolve(n.typeId, n.version)
      case Resolved(i) => if i.paramsOk(n.params) then {} else {Fault(InvalidParameters, n.id)}
      case _ => {}
  }

  function ParamFaults(cat: Catalog, nodes: seq<Node>): Findings {
    Union(seq(|nodes|, i requires 0 <= i < |nodes| => ParamFault(cat, nodes[i])))
  }

  /** Component nodes are deferred: they are absent from the tables. */
  function SemanticsFaults(cat: Catalog, g: Graph): Findings {
    NodeTypeFaults(cat, g.nodes) + EdgesPortFaults(Tables(cat, map[], g.nodes), g.edges)
    + RequiredFaults(cat, Targets(g.edges), g.nodes) + ParamFaults(cat, g.nodes)
  }

  method CheckParams(cat: Catalog, nodes: seq<Node>) returns (faults: Findings)
    ensures faults == ParamFaults(cat, nodes)
  {
    hide Union;
    ghost var rs := seq(|nodes|, i requires 0 <= i < |nodes| => ParamFault(cat, nodes[i]));
    faults := {};
    EmptyPrefix(rs, []);
    for i := 0 to |nodes|
      invariant faults == Union(rs[..i])
    {
      UnionSnoc(rs, i);
      faults := faults + ParamFault(cat, nodes[i]);
    }
    WholePrefix(rs);
  }

  /** `validate_strategy_semantics`. */
  method ValidateSemantics(cat: Catalog, g: Graph) returns (faults: Findings)
    requires UniqueIds(g.nodes)
    ensures faults == SemanticsFaults(cat, g)
  {
    hide Tables, EdgesPortFaults, RequiredFaults, NodeTypeFaults, ParamFaults, Targets;
    var typeFaults := CheckNodeTypes(cat, g.nodes);
    var tables := BuildPortTables(g.nodes, cat, map[]);
    var portFaults := CheckEdgePorts(tables, g.edges);
    var required := CheckRequired(cat, Targets(g.edges), g.nodes);
    var params := CheckParams(cat, g.nodes);
    return typeFaults + portFaults + required + params;
  }

  /* ---- top-level component wiring ---- */

  /** Edges between registered nodes are covered by semantic validation. */
  function TopEdgeFault(t: PortTables, components: set<NodeId>, e: Edge): Findings {
    if e.src !in components && e.dst !in components then {}
    else
      var src, dst := Get(t.outputs, e.src), Get(t.inputs, e.dst);
      (if e.src in components && src.Some? && e.srcPort !in src.value then {Diagnostic(UnknownOutputPort, [e.src], e.srcPort)} else {})
      + (if e.dst in components && dst.Some? && e.dstPort !in dst.value then {Diagnostic(UnknownInputPort, [e.dst], e.dstPort)} else {})
      + (if src.Some? && e.srcPort in src.value && dst.Some? && e.dstPort in dst.value && !IsCompatible(src.value[e.srcPort], dst.value[e.dstPort])
         then {Diagnostic(IncompatiblePortTypes, [e.dst], e.dstPort)} else {})
  }

  function TopEdgeFaults(t: PortTables, components: set<NodeId>, edges: seq<Edge>): Findings {
    Union(seq(|edges|, i requires 0 <= i < |edges| => TopEdgeFault(t, components, edges[i])))
  }

  function TopUnfed(instances: map<NodeId, Instance>, connected: set<Slot>, id: NodeId): Findings
    requires id in instances
  {
    var ports := instances[id].definition.exposedInputs;
    set k | 0 <= k < |ports| && (id, ports[k].name) !in connected :: Diagnostic(RequiredInputUnconnected, [id], ports[k].name)
  }

  function TopUnfedFaults(instances: map<NodeId, Instance>, connected: set<Slot>): Findings {
    set id, f | id in instances && f in TopUnfed(instances, connected, id) :: f
  }

  function DefinitionsOf(instances: map<NodeId, Instance>): map<NodeId, Definition> {
    map id | id in instances :: instances[id].definition
  }

  function ToplevelFaults(cat: Catalog, g: Graph, instances: map<NodeId, Instance>): Findings {
    (set s | s in DuplicateTargets(g.edges) :: Diagnostic(AmbiguousInput, [s.0], s.1))
    + TopEdgeFaults(Tables(cat, DefinitionsOf(instances), g.nodes), instances.Keys, g.edges)
    + TopUnfedFaults(instances, Targets(g.edges))
  }

  method CheckTopEdges(t: PortTables, components: set<NodeId>, edges: seq<Edge>) returns (faults: Findings)
    ensures faults == TopEdgeFaults(t, components, edges)
  {
    hide Union, IsCompatible;
    ghost var rs := seq(|edges|, i requires 0 <= i < |edges| => TopEdgeFault(t, components, edges[i]));
    faults := {};
    EmptyPrefix(rs, []);
    for i := 0 to |edges|
      invariant faults == Union(rs[..i])
    {
      UnionSnoc(rs, i);
      var e := edges[i];
      if e.src !in components && e.dst !in components {
        continue;
      }
      var src, dst := Get(t.outputs, e.src), Get(t.inputs, e.dst);
      if e.src in components && src.Some? && e.srcPort !in src.value {
        faults := faults + {Diagnostic(UnknownOutputPort, [e.src], e.srcPort)};
      }
      if e.dst in components && dst.Some? && e.dstPort !in dst.value {
        faults := faults + {Diagnostic(UnknownInputPort, [e.dst], e.dstPort)};
      }
      if src.Some? && e.srcPort in src.value && dst.Some? && e.dstPort in dst.value && !IsCompatible(src.value[e.srcPort], dst.value[e.dstPort]) {
        faults := faults + {Diagnostic(IncompatiblePortTypes, [e.dst], e.dstPort)};
      }
    }
    WholePrefix(rs);
  }

  lemma UnfedSnoc(instances: map<NodeId, Instance>, connected: set<Slot>, ids: seq<NodeId>, i: nat)
    requires i < |ids| && forall id :: id in ids ==> id in instances
    ensures ids[i] in instances
    ensures (set id, f | id in ids[..i + 1] && f in TopUnfed(instances, connected, id) :: f)
            == (set id, f | id in ids[..i] && f in TopUnfed(instances, connected, id) :: f) + TopUnfed(instances, connected, ids[i])
  {
    hide TopUnfed;
    var last := ids[i];
    assert last in ids;
    assert ids[..i + 1] == ids[..i] + [last];
  }

  method CheckTopUnfed(instances: map<NodeId, Instance>, connected: set<Slot>) returns (faults: Findings)
    ensures faults == TopUnfedFaults(instances, connected)
  {
    hide TopUnfed;
    var ids := Sorted(instances.Keys);
    faults := {};
    for i := 0 to |ids|
      invariant faults == set id, f | id in ids[..i] && f in TopUnfed(instances, connected, id) :: f
    {
      UnfedSnoc(instances, connected, ids, i);
      faults := faults + TopUnfed(instances, connected, ids[i]);
    }
    assert ids[..|ids|] == ids;
    assert forall id :: id in ids <==> id in instances;
  }

  /** `toplevel_component_wiring`. */
  method CheckToplevel(cat: Catalog, g: Graph, instances: map<NodeId, Instance>) returns (faults: Findings)
    requires UniqueIds(g.nodes)
    ensures faults == ToplevelFaults(cat, g, instances)
  {
    hide Tables, TopEdgeFaults, TopUnfedFaults, DuplicateTargets, Targets, DefinitionsOf;
    var duplicated := DuplicateInputEdges(g.edges);
    var tables := BuildPortTables(g.nodes, cat, DefinitionsOf(instances));
    var edgeFaults := CheckTopEdges(tables, instances.Keys, g.edges);
    var unfed := CheckTopUnfed(instances, Targets(g.edges));
    return (set s | s in duplicated :: Diagnostic(AmbiguousInput, [s.0], s.1)) + edgeFaults + unfed;
  }

  /* ---- the terminal rule ---- */

  /** The one node type a strategy graph may end in. */
  const TERMINAL_TYPE_ID: TypeId := 1

  function TerminalNodes(nodes: seq<Node>): (r: seq<Node>)
    ensures forall n :: n in r <==> n in nodes && n.Registered? && n.typeId == TERMINAL_TYPE_ID
  {
    if nodes == [] then []
    else
      var last := nodes[|nodes| - 1];
      assert forall n :: n in nodes <==> n in nodes[..|nodes| - 1] || n == last;
      TerminalNodes(nodes[..|nodes| - 1]) + if last.Registered? && last.typeId == TERMINAL_TYPE_ID then [last] else []
  }

  function TerminalFaults(nodes: seq<Node>): Findings {
    if |TerminalNodes(nodes)| == 0 then {Fault(MissingTerminalNode, TERMINAL_TYPE_ID)}
    else if |TerminalNodes(nodes)| > 1 then {Fault(MultipleTerminalNodes, TERMINAL_TYPE_ID)}
    else {}
  }

  /* ---- the five layers ---- */

  /** Later layers are empty when an earlier one failed. */
  datatype PreflightResult = PreflightResult(structural: Findings, semantic: Findings, runtime: Findings, instances: map<NodeId, Instance>)
  {
    function Faults(): Findings { structural + semantic + runtime }
    predicate Ok() { structural == {} && semantic == {} && runtime == {} }
  }

  lemma CleanDocument(doc: Document)
    requires DocumentFaults(doc) == {}
    ensures GraphOk(doc.graph, RefIds(doc.refs)) && Resolvable(doc)
  {
    hide GraphFaults, DuplicateRefFaults, GraphOk;
    assert GraphFaults(doc.graph, RefIds(doc.refs)) == {};
    GraphFaultsNone(doc.graph, RefIds(doc.refs));
    GraphOkResolves(doc);
  }

  lemma GraphOkResolves(doc: Document)
    requires GraphOk(doc.graph, RefIds(doc.refs))
    ensures Resolvable(doc)
  {
  }

  ghost function RuntimeFaults(cat: Catalog, doc: Document, semanticOk: bool, resolution: ResolvedStrategy): Findings {
    resolution.faults
    + if semanticOk && resolution.Ok() then ToplevelFaults(cat, doc.graph, resolution.instances) + TerminalFaults(doc.graph.nodes) else {}
  }

  ghost function PreflightOf(cat: Catalog, doc: Document, store: Definitions): PreflightResult
    requires KeyedByIdentity(store)
  {
    var structural := DocumentFaults(doc);
    if structural != {} then PreflightResult(structural, {}, {}, map[])
    else
      CleanDocument(doc);
      var semantic := SemanticsFaults(cat, doc.graph);
      var resolution := Resolve(cat, doc, store);
      PreflightResult({}, semantic, RuntimeFaults(cat, doc, semantic == {}, resolution), resolution.instances)
  }

  /** `run_document_preflight`. */
  method RunDocumentPreflight(cat: Catalog, doc: Document, store: Definitions) returns (r: PreflightResult)
    requires KeyedByIdentity(store)
    ensures r == PreflightOf(cat, doc, store)
  {
    hide DocumentFaults, SemanticsFaults, Resolve, ToplevelFaults, GraphOk, KeyedByIdentity;
    var structural := ValidateDocument(doc);
    if structural != {} {
      return PreflightResult(structural, {}, {}, map[]);
    }
    CleanDocument(doc);
    var semantic := ValidateSemantics(cat, doc.graph);
    var resolution := ResolveStrategyComponents(cat, doc, store);
    var runtime := resolution.faults;
    if semantic == {} && resolution.Ok() {
      var wiring := CheckToplevel(cat, doc.graph, resolution.instances);
      runtime := runtime + wiring;
      var terminals := TerminalNodes(doc.graph.nodes);
      if |terminals| == 0 {
        runtime := runtime + {Fault(MissingTerminalNode, TERMINAL_TYPE_ID)};
      } else if |terminals| > 1 {
        runtime := runtime + {Fault(MultipleTerminalNodes, TERMINAL_TYPE_ID)};
      }
    }
    r := PreflightResult({}, semantic, runtime, resolution.instances);
  }

  /* ---- what a clean pre-flight gives ---- */

  /** The document as an instance: nothing is exposed, parameters are the authored ones. */
  function RootOf(doc: Document, instances: map<NodeId, Instance>): Instance {
    Instance(Definition(0, true, doc.refs, doc.graph, [], [], []), AuthoredParams(doc.graph.nodes), instances)
  }

  /** Port existence and compatibility of one top-level edge: each half from the layer that checks it. */
  lemma TopEdgeFits(cat: Catalog, g: Graph, instances: map<NodeId, Instance>, e: Edge)
    requires e.src in NodeIds(g.nodes) && e.dst in NodeIds(g.nodes) && instances.Keys == ComponentNodes(g.nodes)
    requires forall n :: n in g.nodes && n.Registered? ==> cat.Resolve(n.typeId, n.version).Resolved?
    requires EdgePortFaults(Tables(cat, map[], g.nodes), e) == {}
    requires TopEdgeFault(Tables(cat, DefinitionsOf(instances), g.nodes), instances.Keys, e) == {}
    ensures EdgeFits(Tables(cat, DefinitionsOf(instances), g.nodes), e)
  {
    hide Tables, IsCompatible;
    var s, t := Tables(cat, map[], g.nodes), Tables(cat, DefinitionsOf(instances), g.nodes);
    var src, dst := Get(t.outputs, e.src), Get(t.inputs, e.dst);
    assert src.Some? && dst.Some?;
    assert Fault(UnknownOutputPort, e.srcPort) !in EdgePortFaults(s, e);
    assert Fault(UnknownInputPort, e.dstPort) !in EdgePortFaults(s, e);
    assert Fault(IncompatiblePortTypes, e.dstPort) !in EdgePortFaults(s, e);
    assert Diagnostic(UnknownOutputPort, [e.src], e.srcPort) !in TopEdgeFault(t, instances.Keys, e);
    assert Diagnostic(UnknownInputPort, [e.dst], e.dstPort) !in TopEdgeFault(t, instances.Keys, e);
    assert Diagnostic(IncompatiblePortTypes, [e.dst], e.dstPort) !in TopEdgeFault(t, instances.Keys, e);
    assert e.src !in instances ==> Get(s.outputs, e.src) == src;
    assert e.dst !in instances ==> Get(s.inputs, e.dst) == dst;
    assert e.srcPort in src.value;
    assert e.dstPort in dst.value;
  }

  lemma TopEdgesNone(t: PortTables, components: set<NodeId>, edges: seq<Edge>, e: Edge)
    requires TopEdgeFaults(t, components, edges) == {} && e in edges
    ensures TopEdgeFault(t, components, e) == {}
  {
    var rs := seq(|edges|, i requires 0 <= i < |edges| => TopEdgeFault(t, components, edges[i]));
    UnionEmpty(rs);
    var i :| 0 <= i < |edges| && edges[i] == e;
    assert rs[i] == {};
  }

  lemma TopUnfedNone(instances: map<NodeId, Instance>, connected: set<Slot>, id: NodeId)
    requires TopUnfedFaults(instances, connected) == {} && id in instances
    ensures forall e :: e in instances[id].definition.exposedInputs ==> (id, e.name) in connected
  {
    var ports := instances[id].definition.exposedInputs;
    forall e | e in ports ensures (id, e.name) in connected {
      var k :| 0 <= k < |ports| && ports[k] == e;
      assert (id, ports[k].name) !in connected ==> Diagnostic(RequiredInputUnconnected, [id], ports[k].name) in TopUnfed(instances, connected, id);
      assert forall f :: f in TopUnfed(instances, connected, id) ==> f in TopUnfedFaults(instances, connected);
    }
  }

  lemma ToplevelNone(cat: Catalog, g: Graph, instances: map<NodeId, Instance>)
    requires ToplevelFaults(cat, g, instances) == {}
    ensures TopEdgeFaults(Tables(cat, DefinitionsOf(instances), g.nodes), instances.Keys, g.edges) == {}
    ensures TopUnfedFaults(instances, Targets(g.edges)) == {}
  {
    hide Tables, TopEdgeFaults, TopUnfedFaults, DuplicateTargets, Targets, DefinitionsOf;
  }

  lemma SemanticsNone(cat: Catalog, g: Graph)
    requires SemanticsFaults(cat, g) == {}
    ensures NodeTypeFaults(cat, g.nodes) == {} && EdgesPortFaults(Tables(cat, map[], g.nodes), g.edges) == {}
    ensures RequiredFaults(cat, Targets(g.edges), g.nodes) == {} && ParamFaults(cat, g.nodes) == {}
  {
    hide Tables, EdgesPortFaults, RequiredFaults, NodeTypeFaults, ParamFaults, Targets;
  }

  lemma AllTopEdgesFit(cat: Catalog, g: Graph, instances: map<NodeId, Instance>)
    requires Within(EdgePairs(g.edges), NodeIds(g.nodes)) && instances.Keys == ComponentNodes(g.nodes)
    requires SemanticsFaults(cat, g) == {} && ToplevelFaults(cat, g, instances) == {}
    ensures forall e :: e in g.edges ==> EdgeFits(Tables(cat, DefinitionsOf(instances), g.nodes), e)
  {
    hide Tables, EdgesPortFaults, TopEdgeFaults, TopUnfedFaults, NodeTypeFaults, RequiredFaults, ParamFaults, EdgeFits, EdgePortFaults, TopEdgeFault;
    SemanticsNone(cat, g);
    ToplevelNone(cat, g, instances);
    NodeTypesNone(cat, g.nodes);
    forall e | e in g.edges ensures EdgeFits(Tables(cat, DefinitionsOf(instances), g.nodes), e) {
      assert (e.src, e.dst) in EdgePairs(g.edges);
      EdgesPortNone(Tables(cat, map[], g.nodes), g.edges, e);
      TopEdgesNone(Tables(cat, DefinitionsOf(instances), g.nodes), instances.Keys, g.edges, e);
      TopEdgeFits(cat, g, instances, e);
    }
  }

  ghost predicate WiredInstances(cat: Catalog, g: Graph, instances: map<NodeId, Instance>) {
    instances.Keys == ComponentNodes(g.nodes)
    && forall id :: id in instances ==>
         WellWired(cat, instances[id])
         && DistinctNames(instances[id].definition.exposedInputs) && DistinctNames(instances[id].definition.exposedOutputs)
  }

  lemma RootGraphWired(cat: Catalog, doc: Document, instances: map<NodeId, Instance>)
    requires GraphOk(doc.graph, RefIds(doc.refs)) && WiredInstances(cat, doc.graph, instances)
    requires SemanticsFaults(cat, doc.graph) == {} && ToplevelFaults(cat, doc.graph, instances) == {}
    ensures GraphWired(cat, RootOf(doc, instances))
  {
    hide SemanticsFaults, ToplevelFaults, NodeTypeFaults, EdgesPortFaults, RequiredFaults, ParamFaults, TopEdgeFaults, TopUnfedFaults;
    hide Describes, Tables, UnfedRequired, GraphWired, DistinctNames, Acyclic, UniqueIds, Targets, EdgeFits, WellWired, CollectsFeeds;
    var root, g := RootOf(doc, instances), doc.graph;
    SemanticsNone(cat, g);
    ToplevelNone(cat, g, instances);
    NodeTypesNone(cat, g.nodes);
    RequiredNone(cat, Targets(g.edges), g.nodes);
    AllTopEdgesFit(cat, g, instances);
    AllTablesMatch(cat, root, DefinitionsOf(instances));
    NothingExposed(root, g);
    forall id | id in ComponentIds(root) ensures ChildReadyAt(root, Targets(g.edges), id) {
      TopUnfedNone(instances, Targets(g.edges), id);
    }
    GraphWiredFrom(cat, root, Tables(cat, DefinitionsOf(instances), g.nodes), Targets(g.edges));
  }

  lemma NothingExposed(root: Instance, g: Graph)
    requires root.definition.graph == g && root.definition.exposedInputs == []
    ensures CollectsFeeds(root, Targets(g.edges))
  {
    var none: seq<ExposedPort> := [];
    assert Slots(none) == {};
  }

  /** Pre-flight accepts only well-wired documents with exactly one terminal node. */
  lemma CleanIsWellWired(cat: Catalog, doc: Document, store: Definitions)
    requires KeyedByIdentity(store) && PreflightOf(cat, doc, store).Ok()
    ensures WellWired(cat, RootOf(doc, PreflightOf(cat, doc, store).instances))
    ensures |TerminalNodes(doc.graph.nodes)| == 1
    ensures UniqueIds(doc.graph.nodes)
  {
    hide DocumentFaults, SemanticsFaults, ToplevelFaults, GraphOk, KeyedByIdentity, WellWired, DistinctNames, GraphWired;
    CleanDocument(doc);
    var resolution := Resolve(cat, doc, store);
    var instances := resolution.instances;
    assert resolution.Ok();
    ResolvedKeys(cat, doc, store);
    forall id | id in instances
      ensures WellWired(cat, instances[id])
      ensures DistinctNames(instances[id].definition.exposedInputs) && DistinctNames(instances[id].definition.exposedOutputs)
    {
      ResolvedIsWired(cat, doc, store, id);
    }
    RootGraphWired(cat, doc, instances);
    RootWired(cat, doc, instances);
  }

  lemma RootWired(cat: Catalog, doc: Document, instances: map<NodeId, Instance>)
    requires GraphWired(cat, RootOf(doc, instances)) && WiredInstances(cat, doc.graph, instances)
    ensures WellWired(cat, RootOf(doc, instances))
  {
    hide GraphWired;
  }

  lemma ResolvedKeys(cat: Catalog, doc: Document, store: Definitions)
    requires KeyedByIdentity(store) && Resolvable(doc) && Resolve(cat, doc, store).Ok()
    ensures Resolve(cat, doc, store).instances.Keys == ComponentNodes(doc.graph.nodes)
  {
    hide GateFaults, InstanceFaults, SoundClosure, KeysOf, Height, EffectiveParams, Resolvable, ClosureOf, AbsentOf, KeyedByIdentity;
  }
}
