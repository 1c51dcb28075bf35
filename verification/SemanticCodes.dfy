/** Which fault the findings of the registry-level checks name: quantize/validation/semantic.py, quantize/components/resolve.py
    and quantize/evaluator/preflight.py. */
module SemanticCodes {
  import opened Closure
  import opened Collections
  import opened DefinitionChecks
  import opened Diagnostics
  import opened Documents
  import opened Evaluator
  import opened FindingCodes
  import opened PortWiring
  import opened Preflight
  import opened Validation

  /* ---- lookup by type and version ---- */

  ghost predicate HasType(cat: Catalog, typeId: TypeId) {
    exists version :: (typeId, version) in cat.byKey
  }

  /** The lookup is exact: any other version of a known type is unavailable, and a type without any version is unknown. */
  lemma ResolveIs(cat: Catalog, typeId: TypeId, version: Version)
    ensures var r := cat.Resolve(typeId, version);
      && (forall i :: r == Resolved(i) <==> (typeId, version) in cat.byKey && i == cat.byKey[(typeId, version)])
      && (r.VersionUnavailable? <==> (typeId, version) !in cat.byKey && HasType(cat, typeId))
      && (r.UnknownType? <==> !HasType(cat, typeId))
  {
    TypeListed(cat, typeId);
    hide HasType;
  }

  lemma TypeListed(cat: Catalog, typeId: TypeId)
    ensures HasType(cat, typeId) <==> exists k :: k in cat.byKey && k.0 == typeId
  {
    if k :| k in cat.byKey && k.0 == typeId {
      var version := k.1;
      assert (typeId, version) == k;
      assert (typeId, version) in cat.byKey;
      assert HasType(cat, typeId);
    }
    if HasType(cat, typeId) {
      var version :| (typeId, version) in cat.byKey;
      var k := (typeId, version);
      assert k in cat.byKey && k.0 == typeId;
    }
  }

  /** A registered node of the type is in the graph, and no node type is called so. */
  ghost predicate UnknownTypeIn(cat: Catalog, nodes: seq<Node>, x: int) {
    !HasType(cat, x) && exists n :: n in nodes && n.Registered? && n.typeId == x
  }

  /** The node type exists, but not in the version of a node of the graph. */
  ghost predicate VersionMissingIn(cat: Catalog, nodes: seq<Node>, x: int) {
    HasType(cat, x) && exists n :: n in nodes && n.Registered? && n.typeId == x && (x, n.version) !in cat.byKey
  }

  lemma NodeTypesTold(cat: Catalog, nodes: seq<Node>, d: Diagnostic)
    ensures d in NodeTypeFaults(cat, nodes) <==>
      (d == Fault(UnknownNodeType, d.subject) && UnknownTypeIn(cat, nodes, d.subject))
      || (d == Fault(NodeVersionUnavailable, d.subject) && VersionMissingIn(cat, nodes, d.subject))
  {
    hide HasType;
    var rs := seq(|nodes|, i requires 0 <= i < |nodes| => NodeTypeFault(cat, nodes[i]));
    forall n | n in nodes && n.Registered?
      ensures d in NodeTypeFault(cat, n) <==>
        d.subject == n.typeId && ((d == Fault(UnknownNodeType, d.subject) && !HasType(cat, n.typeId))
                                  || (d == Fault(NodeVersionUnavailable, d.subject) && HasType(cat, n.typeId) && (n.typeId, n.version) !in cat.byKey))
    {
      ResolveIs(cat, n.typeId, n.version);
    }
    if n :| n in nodes && d in NodeTypeFault(cat, n) {
      var i :| 0 <= i < |nodes| && nodes[i] == n;
      assert d in rs[i];
    }
  }

  /* ---- ports ---- */

  /** The last port so named. */
  ghost predicate OutputOf(ports: seq<OutputPort>, name: PortName, portType: PortType) {
    exists k :: 0 <= k < |ports| && ports[k] == OutputPort(name, portType) && forall j :: k < j < |ports| ==> ports[j].name != name
  }

  ghost predicate InputOf(ports: seq<InputPort>, name: PortName, portType: PortType) {
    exists k :: 0 <= k < |ports| && ports[k].name == name && ports[k].portType == portType && forall j :: k < j < |ports| ==> ports[j].name != name
  }

  ghost predicate ExposureOf(ports: seq<ExposedPort>, name: PortName, portType: PortType) {
    exists k :: 0 <= k < |ports| && ports[k].name == name && ports[k].portType == portType && forall j :: k < j < |ports| ==> ports[j].name != name
  }

  lemma {:induction false} OutputTypesAre(ports: seq<OutputPort>, name: PortName, portType: PortType)
    ensures Get(OutputTypes(ports), name) == Some(portType) <==> OutputOf(ports, name, portType)
  {
    if ports != [] {
      var n := |ports| - 1;
      OutputTypesAre(ports[..n], name, portType);
      if ports[n].name != name && OutputOf(ports, name, portType) {
        var k :| 0 <= k < |ports| && ports[k] == OutputPort(name, portType) && forall j :: k < j < |ports| ==> ports[j].name != name;
        assert ports[..n][k] == ports[k];
      }
      if ports[n].name == name {
        assert OutputOf(ports, name, ports[n].portType);
      }
    }
  }

  lemma {:induction false} InputTypesAre(ports: seq<InputPort>, name: PortName, portType: PortType)
    ensures Get(InputTypes(ports), name) == Some(portType) <==> InputOf(ports, name, portType)
  {
    if ports != [] {
      var n := |ports| - 1;
      InputTypesAre(ports[..n], name, portType);
      if ports[n].name != name && InputOf(ports, name, portType) {
        var k :| 0 <= k < |ports| && ports[k].name == name && ports[k].portType == portType && forall j :: k < j < |ports| ==> ports[j].name != name;
        assert ports[..n][k] == ports[k];
      }
      if ports[n].name == name {
        assert InputOf(ports, name, ports[n].portType);
      }
    }
  }

  lemma {:induction false} ExposedTypesAre(ports: seq<ExposedPort>, name: PortName, portType: PortType)
    ensures Get(ExposedTypes(ports), name) == Some(portType) <==> ExposureOf(ports, name, portType)
  {
    if ports != [] {
      var n := |ports| - 1;
      ExposedTypesAre(ports[..n], name, portType);
      if ports[n].name != name && ExposureOf(ports, name, portType) {
        var k :| 0 <= k < |ports| && ports[k].name == name && ports[k].portType == portType && forall j :: k < j < |ports| ==> ports[j].name != name;
        assert ports[..n][k] == ports[k];
      }
      if ports[n].name == name {
        assert ExposureOf(ports, name, ports[n].portType);
      }
    }
  }

  /** A graph among the node types of a catalog and the definitions its component nodes stand for. */
  datatype Scope = Scope(cat: Catalog, defs: map<NodeId, Definition>, nodes: seq<Node>)
  {
    /** The registered node type a node has. */
    ghost predicate Has(id: NodeId, i: Implementation) {
      id in NodeIds(nodes) && var n := NodeOf(nodes, id);
        n.Registered? && (n.typeId, n.version) in cat.byKey && i == cat.byKey[(n.typeId, n.version)]
    }

    /** The definition a component node stands for. */
    ghost predicate Stands(id: NodeId, d: Definition) {
      id in NodeIds(nodes) && NodeOf(nodes, id).Component? && id in defs && d == defs[id]
    }

    ghost predicate Known(id: NodeId) {
      (exists i :: Has(id, i)) || (exists d :: Stands(id, d))
    }

    /** The node has this output port, of this type. */
    ghost predicate Offers(id: NodeId, name: PortName, portType: PortType) {
      (exists i :: Has(id, i) && OutputOf(i.outputs, name, portType)) || (exists d :: Stands(id, d) && ExposureOf(d.exposedOutputs, name, portType))
    }

    /** The node has this input port, of this type. */
    ghost predicate Takes(id: NodeId, name: PortName, portType: PortType) {
      (exists i :: Has(id, i) && InputOf(i.inputs, name, portType)) || (exists d :: Stands(id, d) && ExposureOf(d.exposedInputs, name, portType))
    }
  }

  function TablesOf(s: Scope): PortTables {
    Tables(s.cat, s.defs, s.nodes)
  }

  /** The port of a table row. */
  function PortIn(rows: map<NodeId, PortMap>, id: NodeId, name: PortName): Option<PortType> {
    if id in rows then Get(rows[id], name) else None
  }

  lemma TablesAre(s: Scope, id: NodeId, name: PortName, portType: PortType)
    ensures id in TablesOf(s).outputs <==> s.Known(id)
    ensures id in TablesOf(s).inputs <==> s.Known(id)
    ensures PortIn(TablesOf(s).outputs, id, name) == Some(portType) <==> s.Offers(id, name, portType)
    ensures PortIn(TablesOf(s).inputs, id, name) == Some(portType) <==> s.Takes(id, name, portType)
  {
    hide OutputOf, InputOf, ExposureOf, Tables, NodeOf, NodeIds, OutputTypes, InputTypes, ExposedTypes;
    var t := TablesOf(s);
    if id in NodeIds(s.nodes) && NodeOf(s.nodes, id).Registered? {
      RegisteredRow(s, id);
      var n := NodeOf(s.nodes, id);
      if (n.typeId, n.version) in s.cat.byKey {
        var i := s.cat.byKey[(n.typeId, n.version)];
        assert s.Has(id, i);
        OutputTypesAre(i.outputs, name, portType);
        InputTypesAre(i.inputs, name, portType);
      }
    } else {
      OtherRow(s, id);
      if id in NodeIds(s.nodes) && id in s.defs {
        assert s.Stands(id, s.defs[id]);
        ExposedTypesAre(s.defs[id].exposedOutputs, name, portType);
        ExposedTypesAre(s.defs[id].exposedInputs, name, portType);
      }
    }
  }

  lemma RegisteredRow(s: Scope, id: NodeId)
    requires id in NodeIds(s.nodes) && NodeOf(s.nodes, id).Registered?
    ensures var n := NodeOf(s.nodes, id);
      if (n.typeId, n.version) in s.cat.byKey
      then Get(TablesOf(s).outputs, id) == Some(OutputTypes(s.cat.byKey[(n.typeId, n.version)].outputs))
           && Get(TablesOf(s).inputs, id) == Some(InputTypes(s.cat.byKey[(n.typeId, n.version)].inputs))
      else Get(TablesOf(s).outputs, id) == None && Get(TablesOf(s).inputs, id) == None
  {
    hide NodeOf, NodeIds, OutputTypes, InputTypes, ExposedTypes;
    ResolveIs(s.cat, NodeOf(s.nodes, id).typeId, NodeOf(s.nodes, id).version);
  }

  lemma OtherRow(s: Scope, id: NodeId)
    requires id in NodeIds(s.nodes) ==> NodeOf(s.nodes, id).Component?
    ensures if id in NodeIds(s.nodes) && id in s.defs
      then Get(TablesOf(s).outputs, id) == Some(ExposedTypes(s.defs[id].exposedOutputs))
           && Get(TablesOf(s).inputs, id) == Some(ExposedTypes(s.defs[id].exposedInputs))
      else Get(TablesOf(s).outputs, id) == None && Get(TablesOf(s).inputs, id) == None
  {
    hide NodeOf, NodeIds, OutputTypes, InputTypes, ExposedTypes;
  }

  /* ---- edges ---- */

  /** A port of a known node that it does not have, or two ports of types that do not fit. */
  ghost predicate EdgeFaultOf(s: Scope, e: Edge, code: Code, x: int) {
    match code
    case UnknownOutputPort => x == e.srcPort && s.Known(e.src) && forall t :: !s.Offers(e.src, e.srcPort, t)
    case UnknownInputPort => x == e.dstPort && s.Known(e.dst) && forall t :: !s.Takes(e.dst, e.dstPort, t)
    case IncompatiblePortTypes => x == e.dstPort && Clash(s, e)
    case _ => false
  }

  ghost predicate Clash(s: Scope, e: Edge) {
    exists a, b :: s.Offers(e.src, e.srcPort, a) && s.Takes(e.dst, e.dstPort, b) && !IsCompatible(a, b)
  }

  ghost predicate EdgeFaultIn(s: Scope, edges: seq<Edge>, code: Code, x: int) {
    exists e :: e in edges && EdgeFaultOf(s, e, code, x)
  }

  /** What the tables say about one edge. */
  lemma EdgeTold(s: Scope, e: Edge)
    ensures var t := TablesOf(s);
      var src, dst := Get(t.outputs, e.src), Get(t.inputs, e.dst);
      && (src.Some? && e.srcPort !in src.value <==> s.Known(e.src) && forall t :: !s.Offers(e.src, e.srcPort, t))
      && (dst.Some? && e.dstPort !in dst.value <==> s.Known(e.dst) && forall t :: !s.Takes(e.dst, e.dstPort, t))
      && (src.Some? && e.srcPort in src.value && dst.Some? && e.dstPort in dst.value && !IsCompatible(src.value[e.srcPort], dst.value[e.dstPort])
          <==> Clash(s, e))
  {
    hide Scope.Known, Scope.Offers, Scope.Takes, TablesOf, IsCompatible;
    var t := TablesOf(s);
    var src, dst := PortIn(t.outputs, e.src, e.srcPort), PortIn(t.inputs, e.dst, e.dstPort);
    TablesAre(s, e.src, e.srcPort, ScalarType(Number));
    TablesAre(s, e.dst, e.dstPort, ScalarType(Number));
    forall a ensures src == Some(a) <==> s.Offers(e.src, e.srcPort, a) {
      TablesAre(s, e.src, e.srcPort, a);
    }
    forall b ensures dst == Some(b) <==> s.Takes(e.dst, e.dstPort, b) {
      TablesAre(s, e.dst, e.dstPort, b);
    }
  }

  lemma EdgePortsTold(s: Scope, e: Edge, d: Diagnostic)
    ensures d in EdgePortFaults(TablesOf(s), e) <==> d.path == [] && EdgeFaultOf(s, e, d.code, d.subject)
  {
    hide Scope.Known, Scope.Offers, Scope.Takes, TablesOf, IsCompatible, Clash;
    EdgeTold(s, e);
  }

  lemma EdgesTold(s: Scope, edges: seq<Edge>, d: Diagnostic)
    ensures d in EdgesPortFaults(TablesOf(s), edges) <==> d.path == [] && EdgeFaultIn(s, edges, d.code, d.subject)
  {
    hide TablesOf, EdgePortFaults, EdgeFaultOf;
    var rs := seq(|edges|, i requires 0 <= i < |edges| => EdgePortFaults(TablesOf(s), edges[i]));
    forall e ensures d in EdgePortFaults(TablesOf(s), e) <==> d.path == [] && EdgeFaultOf(s, e, d.code, d.subject) {
      EdgePortsTold(s, e, d);
    }
    if e :| e in edges && d in EdgePortFaults(TablesOf(s), e) {
      var i :| 0 <= i < |edges| && edges[i] == e;
      assert d in rs[i];
    }
  }

  /** The input port is fed by an edge. */
  ghost predicate EdgeFeeds(edges: seq<Edge>, id: NodeId, name: PortName) {
    exists e :: e in edges && e.dst == id && e.dstPort == name
  }

  /** It is fed by an exposed input of the surrounding component. */
  ghost predicate ExposureFeeds(exposed: seq<ExposedPort>, id: NodeId, name: PortName) {
    exists e :: e in exposed && e.node == id && e.port == name
  }

  lemma TargetsAre(edges: seq<Edge>, id: NodeId, name: PortName)
    ensures (id, name) in Targets(edges) <==> EdgeFeeds(edges, id, name)
  {
    if e :| e in edges && e.dst == id && e.dstPort == name {
      var i :| 0 <= i < |edges| && edges[i] == e;
      assert Target(edges[i]) == (id, name);
    }
    if (id, name) in Targets(edges) {
      var i :| 0 <= i < |edges| && Target(edges[i]) == (id, name);
      assert edges[i] in edges;
    }
  }

  lemma SlotsAre(exposed: seq<ExposedPort>, id: NodeId, name: PortName)
    ensures (id, name) in Slots(exposed) <==> ExposureFeeds(exposed, id, name)
  {
    if e :| e in exposed && e.node == id && e.port == name {
      var i :| 0 <= i < |exposed| && exposed[i] == e;
      assert SlotOf(exposed[i]) == (id, name);
    }
    if (id, name) in Slots(exposed) {
      var i :| 0 <= i < |exposed| && SlotOf(exposed[i]) == (id, name);
      assert exposed[i] in exposed;
    }
  }

  /** Two edges feed the same input port. */
  ghost predicate FedByTwoEdges(edges: seq<Edge>, id: NodeId, name: PortName) {
    exists i, j :: 0 <= i < j < |edges| && edges[i].dst == edges[j].dst == id && edges[i].dstPort == edges[j].dstPort == name
  }

  lemma DuplicateTargetsAre(edges: seq<Edge>, id: NodeId, name: PortName)
    ensures (id, name) in DuplicateTargets(edges) <==> FedByTwoEdges(edges, id, name)
  {
    if FedByTwoEdges(edges, id, name) {
      var i, j :| 0 <= i < j < |edges| && edges[i].dst == edges[j].dst == id && edges[i].dstPort == edges[j].dstPort == name;
      assert Target(edges[i]) == Target(edges[j]) == (id, name);
      assert TargetedBefore(edges, j);
    }
  }

  /** A registered node requires an input so named, and nothing feeds it. */
  ghost predicate RequiredUnfed(cat: Catalog, nodes: seq<Node>, edges: seq<Edge>, exposed: seq<ExposedPort>, x: int) {
    exists n, p :: n in nodes && n.Registered? && (n.typeId, n.version) in cat.byKey && p in cat.byKey[(n.typeId, n.version)].inputs
      && p.required && p.name == x && !EdgeFeeds(edges, n.id, x) && !ExposureFeeds(exposed, n.id, x)
  }

  lemma RequiredTold(cat: Catalog, nodes: seq<Node>, edges: seq<Edge>, exposed: seq<ExposedPort>, d: Diagnostic)
    ensures d in RequiredFaults(cat, Targets(edges) + Slots(exposed), nodes)
      <==> d == Fault(RequiredInputUnconnected, d.subject) && RequiredUnfed(cat, nodes, edges, exposed, d.subject)
  {
    hide Targets, Slots, EdgeFeeds, ExposureFeeds;
    var connected := Targets(edges) + Slots(exposed);
    var rs := seq(|nodes|, i requires 0 <= i < |nodes| => UnfedRequired(cat, connected, nodes[i]));
    forall id, name ensures (id, name) in connected <==> EdgeFeeds(edges, id, name) || ExposureFeeds(exposed, id, name) {
      TargetsAre(edges, id, name);
      SlotsAre(exposed, id, name);
    }
    forall n | n in nodes && n.Registered? ensures cat.Resolve(n.typeId, n.version).Resolved? <==> (n.typeId, n.version) in cat.byKey {
      ResolveIs(cat, n.typeId, n.version);
    }
    if n :| n in nodes && d in UnfedRequired(cat, connected, n) {
      var i :| 0 <= i < |nodes| && nodes[i] == n;
      assert d in rs[i];
    }
    if RequiredUnfed(cat, nodes, edges, exposed, d.subject) && d == Fault(RequiredInputUnconnected, d.subject) {
      var n, p :| n in nodes && n.Registered? && (n.typeId, n.version) in cat.byKey && p in cat.byKey[(n.typeId, n.version)].inputs
        && p.required && p.name == d.subject && !EdgeFeeds(edges, n.id, d.subject) && !ExposureFeeds(exposed, n.id, d.subject);
      assert (n.id, p.name) !in connected;
      assert d in UnfedRequired(cat, connected, n);
    }
  }

  /* ---- the document's registered nodes ---- */

  /** A registered node rejects its own parameters. */
  ghost predicate ParamsRejected(cat: Catalog, nodes: seq<Node>, x: int) {
    exists n :: n in nodes && n.id == x && n.Registered? && (n.typeId, n.version) in cat.byKey && !cat.byKey[(n.typeId, n.version)].paramsOk(n.params)
  }

  lemma ParamsTold(cat: Catalog, nodes: seq<Node>, d: Diagnostic)
    ensures d in ParamFaults(cat, nodes) <==> d == Fault(InvalidParameters, d.subject) && ParamsRejected(cat, nodes, d.subject)
  {
    var rs := seq(|nodes|, i requires 0 <= i < |nodes| => ParamFault(cat, nodes[i]));
    if n :| n in nodes && d in ParamFault(cat, n) {
      var i :| 0 <= i < |nodes| && nodes[i] == n;
      assert d in rs[i];
    }
    if ParamsRejected(cat, nodes, d.subject) && d == Fault(InvalidParameters, d.subject) {
      var n :| n in nodes && n.id == d.subject && n.Registered? && (n.typeId, n.version) in cat.byKey && !cat.byKey[(n.typeId, n.version)].paramsOk(n.params);
      ResolveIs(cat, n.typeId, n.version);
      assert d in ParamFault(cat, n);
    }
  }

  ghost predicate SemanticFault(cat: Catalog, g: Graph, code: Code, x: int) {
    match code
    case UnknownNodeType => UnknownTypeIn(cat, g.nodes, x)
    case NodeVersionUnavailable => VersionMissingIn(cat, g.nodes, x)
    case RequiredInputUnconnected => RequiredUnfed(cat, g.nodes, g.edges, [], x)
    case InvalidParameters => ParamsRejected(cat, g.nodes, x)
    case _ => EdgeFaultIn(Scope(cat, map[], g.nodes), g.edges, code, x)
  }

  /** The findings of semantic validation name the faults of a document's registered nodes, and all of them are found. */
  lemma SemanticFindings(cat: Catalog, g: Graph, d: Diagnostic)
    ensures d in SemanticsFaults(cat, g) <==> d.path == [] && SemanticFault(cat, g, d.code, d.subject)
  {
    hide NodeTypeFaults, EdgesPortFaults, RequiredFaults, ParamFaults, UnknownTypeIn, VersionMissingIn, RequiredUnfed, ParamsRejected, EdgeFaultIn, Tables, Targets;
    NodeTypesTold(cat, g.nodes, d);
    var s := Scope(cat, map[], g.nodes);
    EdgesTold(s, g.edges, d);
    NothingExposed();
    assert Targets(g.edges) + Slots([]) == Targets(g.edges);
    RequiredTold(cat, g.nodes, g.edges, [], d);
    ParamsTold(cat, g.nodes, d);
    OtherCodes(s, g.edges, d.code, d.subject);
  }

  lemma NothingExposed()
    ensures Slots([]) == {}
  {
  }

  lemma OtherCodes(s: Scope, edges: seq<Edge>, code: Code, x: int)
    ensures EdgeFaultIn(s, edges, code, x) ==> code in {UnknownOutputPort, UnknownInputPort, IncompatiblePortTypes}
  {
  }

  /* ---- definitions ---- */

  lemma NamesTold(code: Code, names: seq<int>, d: Diagnostic)
    ensures d in DuplicateNameFaults(code, names) <==> d == Fault(code, d.subject) && Twice(names, d.subject)
  {
    var rs := seq(|names|, i requires 0 <= i < |names| => DuplicateNameFault(code, names, i));
    if d in Union(rs) {
      var j :| 0 <= j < |rs| && d in rs[j];
      var i :| 0 <= i < j && names[..j][i] == names[j];
      assert names[i] == names[j];
    }
    if d == Fault(code, d.subject) && Twice(names, d.subject) {
      var i, j :| 0 <= i < j < |names| && names[i] == d.subject && names[j] == d.subject;
      assert names[..j][i] == names[j];
      assert d in rs[j];
    }
  }

  ghost predicate InputExposureFaultOf(s: Scope, edges: seq<Edge>, exposed: seq<ExposedPort>, i: nat, code: Code)
    requires i < |exposed|
  {
    var e := exposed[i];
    match code
    case ExposedPortTargetMissing => forall t :: !s.Takes(e.node, e.port, t)
    case ExposedPortTypeIncompatible => exists t :: s.Takes(e.node, e.port, t) && !IsCompatible(e.portType, t)
    case AmbiguousInput =>
      (exists t :: s.Takes(e.node, e.port, t))
      && (EdgeFeeds(edges, e.node, e.port) || exists j :: 0 <= j < i && exposed[j].node == e.node && exposed[j].port == e.port)
    case _ => false
  }

  /** An exposed input without a target, of a type its target does not take, or whose target is fed otherwise. */
  ghost predicate InputExposureFaultIn(s: Scope, edges: seq<Edge>, exposed: seq<ExposedPort>, code: Code, x: int) {
    exists i :: 0 <= i < |exposed| && exposed[i].name == x && InputExposureFaultOf(s, edges, exposed, i, code)
  }

  lemma HitsTold(s: Scope, e: ExposedPort)
    ensures HitsPort(TablesOf(s).inputs, e) <==> exists t :: s.Takes(e.node, e.port, t)
    ensures HitsPort(TablesOf(s).outputs, e) <==> exists t :: s.Offers(e.node, e.port, t)
    ensures HitsPort(TablesOf(s).inputs, e) ==> forall t :: s.Takes(e.node, e.port, t) <==> t == TablesOf(s).inputs[e.node][e.port]
    ensures HitsPort(TablesOf(s).outputs, e) ==> forall t :: s.Offers(e.node, e.port, t) <==> t == TablesOf(s).outputs[e.node][e.port]
  {
    hide Scope.Takes, Scope.Offers, TablesOf, Scope.Known;
    var taken, offered := PortIn(TablesOf(s).inputs, e.node, e.port), PortIn(TablesOf(s).outputs, e.node, e.port);
    forall t ensures taken == Some(t) <==> s.Takes(e.node, e.port, t) {
      TablesAre(s, e.node, e.port, t);
    }
    forall t ensures offered == Some(t) <==> s.Offers(e.node, e.port, t) {
      TablesAre(s, e.node, e.port, t);
    }
    if taken.Some? { assert s.Takes(e.node, e.port, taken.value); }
    if offered.Some? { assert s.Offers(e.node, e.port, offered.value); }
  }

  lemma FedTwiceTold(s: Scope, edges: seq<Edge>, exposed: seq<ExposedPort>, i: nat)
    requires i < |exposed| && HitsPort(TablesOf(s).inputs, exposed[i])
    ensures FedTwice(TablesOf(s).inputs, Targets(edges), exposed, i) <==>
      EdgeFeeds(edges, exposed[i].node, exposed[i].port)
      || exists j :: 0 <= j < i && exposed[j].node == exposed[i].node && exposed[j].port == exposed[i].port
  {
    hide TablesOf, Targets, EdgeFeeds;
    TargetsAre(edges, exposed[i].node, exposed[i].port);
    if j :| 0 <= j < i && exposed[j].node == exposed[i].node && exposed[j].port == exposed[i].port {
      assert HitsPort(TablesOf(s).inputs, exposed[j]) && SlotOf(exposed[j]) == SlotOf(exposed[i]);
    }
  }

  lemma InputExposureTold(s: Scope, edges: seq<Edge>, exposed: seq<ExposedPort>, i: nat, d: Diagnostic)
    requires i < |exposed|
    ensures d in InputExposureFault(TablesOf(s), Targets(edges), exposed, i)
      <==> d.path == [] && exposed[i].name == d.subject && InputExposureFaultOf(s, edges, exposed, i, d.code)
  {
    hide TablesOf, Targets, EdgeFeeds, HitsPort, Scope.Takes, IsCompatible, FedTwice;
    HitsTold(s, exposed[i]);
    if HitsPort(TablesOf(s).inputs, exposed[i]) {
      FedTwiceTold(s, edges, exposed, i);
      Hit(TablesOf(s).inputs, exposed[i]);
    }
  }

  lemma InputExposuresTold(s: Scope, edges: seq<Edge>, exposed: seq<ExposedPort>, d: Diagnostic)
    ensures d in InputExposureFaults(TablesOf(s), Targets(edges), exposed)
      <==> d.path == [] && InputExposureFaultIn(s, edges, exposed, d.code, d.subject)
  {
    hide TablesOf, Targets, InputExposureFault, InputExposureFaultOf;
    var rs := seq(|exposed|, i requires 0 <= i < |exposed| => InputExposureFault(TablesOf(s), Targets(edges), exposed, i));
    forall i | 0 <= i < |exposed|
      ensures d in rs[i] <==> d.path == [] && exposed[i].name == d.subject && InputExposureFaultOf(s, edges, exposed, i, d.code)
    {
      InputExposureTold(s, edges, exposed, i, d);
    }
  }

  ghost predicate OutputExposureFaultOf(s: Scope, e: ExposedPort, code: Code) {
    match code
    case ExposedPortTargetMissing => forall t :: !s.Offers(e.node, e.port, t)
    case ExposedPortTypeIncompatible => exists t :: s.Offers(e.node, e.port, t) && !IsCompatible(t, e.portType)
    case _ => false
  }

  /** An exposed output without a source, or of a type its source does not have. */
  ghost predicate OutputExposureFaultIn(s: Scope, exposed: seq<ExposedPort>, code: Code, x: int) {
    exists e :: e in exposed && e.name == x && OutputExposureFaultOf(s, e, code)
  }

  lemma OutputExposureTold(s: Scope, e: ExposedPort, d: Diagnostic)
    ensures d in OutputExposureFault(TablesOf(s), e) <==> d.path == [] && e.name == d.subject && OutputExposureFaultOf(s, e, d.code)
  {
    hide TablesOf, HitsPort, Scope.Offers, IsCompatible;
    HitsTold(s, e);
    if HitsPort(TablesOf(s).outputs, e) {
      Hit(TablesOf(s).outputs, e);
    }
  }

  lemma OutputExposuresTold(s: Scope, exposed: seq<ExposedPort>, d: Diagnostic)
    ensures d in OutputExposureFaults(TablesOf(s), exposed) <==> d.path == [] && OutputExposureFaultIn(s, exposed, d.code, d.subject)
  {
    hide TablesOf, OutputExposureFault, OutputExposureFaultOf;
    var rs := seq(|exposed|, i requires 0 <= i < |exposed| => OutputExposureFault(TablesOf(s), exposed[i]));
    forall e ensures d in OutputExposureFault(TablesOf(s), e) <==> d.path == [] && e.name == d.subject && OutputExposureFaultOf(s, e, d.code) {
      OutputExposureTold(s, e, d);
    }
    if e :| e in exposed && d in OutputExposureFault(TablesOf(s), e) {
      var i :| 0 <= i < |exposed| && exposed[i] == e;
      assert d in rs[i];
    }
  }

  ghost predicate ExposedParamFaultOf(nodes: seq<Node>, defs: map<NodeId, Definition>, p: ExposedParam, code: Code) {
    match code
    case ExposedParamTargetMissing => p.node !in NodeIds(nodes) || (p.node in defs && forall q :: q in defs[p.node].exposedParams ==> q.name != p.param)
    case ExposedParamSchemaInvalid => p.node in NodeIds(nodes) && !p.schema.wellFormed
    case _ => false
  }

  /** An exposed parameter bound to no node, or to a parameter its component does not expose, or with a broken schema. */
  ghost predicate ExposedParamFaultIn(nodes: seq<Node>, defs: map<NodeId, Definition>, params: seq<ExposedParam>, code: Code, x: int) {
    exists p :: p in params && p.name == x && ExposedParamFaultOf(nodes, defs, p, code)
  }

  lemma ParamNamesAre(params: seq<ExposedParam>, name: ParamName)
    ensures name in ParamNames(params) <==> exists q :: q in params && q.name == name
  {
    if q :| q in params && q.name == name {
      var i :| 0 <= i < |params| && params[i] == q;
      assert ParamNames(params)[i] == name;
    }
    if name in ParamNames(params) {
      var i :| 0 <= i < |params| && ParamNames(params)[i] == name;
      assert params[i] in params;
    }
  }

  lemma ExposedParamTold(nodes: seq<Node>, defs: map<NodeId, Definition>, p: ExposedParam, d: Diagnostic)
    ensures d in ExposedParamFault(NodeIds(nodes), defs, p) <==> d.path == [] && p.name == d.subject && ExposedParamFaultOf(nodes, defs, p, d.code)
  {
    hide NodeIds, ParamNames;
    if p.node in defs {
      ParamNamesAre(defs[p.node].exposedParams, p.param);
    }
  }

  lemma ExposedParamsTold(nodes: seq<Node>, defs: map<NodeId, Definition>, params: seq<ExposedParam>, d: Diagnostic)
    ensures d in ExposedParamFaults(NodeIds(nodes), defs, params) <==> d.path == [] && ExposedParamFaultIn(nodes, defs, params, d.code, d.subject)
  {
    hide NodeIds, ExposedParamFault, ExposedParamFaultOf;
    var rs := seq(|params|, i requires 0 <= i < |params| => ExposedParamFault(NodeIds(nodes), defs, params[i]));
    forall p ensures d in ExposedParamFault(NodeIds(nodes), defs, p) <==> d.path == [] && p.name == d.subject && ExposedParamFaultOf(nodes, defs, p, d.code) {
      ExposedParamTold(nodes, defs, p, d);
    }
    if p :| p in params && d in ExposedParamFault(NodeIds(nodes), defs, p) {
      var i :| 0 <= i < |params| && params[i] == p;
      assert d in rs[i];
    }
  }

  /** Nothing feeds an input of a component node. */
  ghost predicate ComponentUnfed(s: Scope, edges: seq<Edge>, exposed: seq<ExposedPort>, x: int) {
    exists n :: n in s.nodes && ComponentUnfedAt(s, edges, exposed, n, x)
  }

  ghost predicate ComponentUnfedAt(s: Scope, edges: seq<Edge>, exposed: seq<ExposedPort>, n: Node, x: int) {
    n.Component? && (exists t :: s.Takes(n.id, x, t)) && !EdgeFeeds(edges, n.id, x) && !ExposureFeeds(exposed, n.id, x)
  }

  lemma TakenIff(s: Scope, id: NodeId, x: PortName)
    ensures (id in TablesOf(s).inputs && x in TablesOf(s).inputs[id]) <==> exists p :: s.Takes(id, x, p)
  {
    hide TablesOf, Scope.Takes, Scope.Offers, Scope.Known;
    var taken := PortIn(TablesOf(s).inputs, id, x);
    forall p ensures taken == Some(p) <==> s.Takes(id, x, p) {
      TablesAre(s, id, x, p);
    }
    if taken.Some? {
      assert s.Takes(id, x, taken.value);
    }
  }

  lemma ComponentTold(s: Scope, edges: seq<Edge>, exposed: seq<ExposedPort>, n: Node, d: Diagnostic)
    ensures d in UnfedExposed(TablesOf(s), Targets(edges) + Slots(exposed), n)
      <==> d == Fault(RequiredInputUnconnected, d.subject) && ComponentUnfedAt(s, edges, exposed, n, d.subject)
  {
    hide Targets, Slots, EdgeFeeds, ExposureFeeds, TablesOf, Scope.Takes;
    TargetsAre(edges, n.id, d.subject);
    SlotsAre(exposed, n.id, d.subject);
    TakenIff(s, n.id, d.subject);
  }

  lemma ComponentsTold(s: Scope, edges: seq<Edge>, exposed: seq<ExposedPort>, d: Diagnostic)
    ensures d in ExposedFaults(TablesOf(s), Targets(edges) + Slots(exposed), s.nodes)
      <==> d == Fault(RequiredInputUnconnected, d.subject) && ComponentUnfed(s, edges, exposed, d.subject)
  {
    hide Targets, Slots, TablesOf, ComponentUnfedAt;
    forall n ensures d in UnfedExposed(TablesOf(s), Targets(edges) + Slots(exposed), n)
        <==> d == Fault(RequiredInputUnconnected, d.subject) && ComponentUnfedAt(s, edges, exposed, n, d.subject)
    {
      ComponentTold(s, edges, exposed, n, d);
    }
    UnfedMember(TablesOf(s), Targets(edges) + Slots(exposed), s.nodes, d);
    hide UnfedExposed;
  }

  lemma UnfedMember(t: PortTables, connected: set<Slot>, nodes: seq<Node>, d: Diagnostic)
    ensures d in ExposedFaults(t, connected, nodes) <==> exists n :: n in nodes && d in UnfedExposed(t, connected, n)
  {
    hide UnfedExposed;
    var rs := seq(|nodes|, i requires 0 <= i < |nodes| => UnfedExposed(t, connected, nodes[i]));
    if n :| n in nodes && d in UnfedExposed(t, connected, n) {
      var i :| 0 <= i < |nodes| && nodes[i] == n;
      assert d in rs[i];
    }
  }

  ghost predicate DefinitionSemanticFault(s: Scope, d: Definition, code: Code, x: int) {
    match code
    case UnknownNodeType => UnknownTypeIn(s.cat, d.graph.nodes, x)
    case NodeVersionUnavailable => VersionMissingIn(s.cat, d.graph.nodes, x)
    case DuplicateExposedPort => Twice(PortNames(d.exposedInputs), x) || Twice(PortNames(d.exposedOutputs), x)
    case DuplicateExposedParam => Twice(ParamNames(d.exposedParams), x)
    case ExposedPortTargetMissing => ExposedPortFault(s, d, code, x)
    case ExposedPortTypeIncompatible => ExposedPortFault(s, d, code, x)
    case AmbiguousInput => ExposedPortFault(s, d, code, x) || exists name :: FedByTwoEdges(d.graph.edges, x, name)
    case ExposedParamTargetMissing => ExposedParamFaultIn(d.graph.nodes, s.defs, d.exposedParams, code, x)
    case ExposedParamSchemaInvalid => ExposedParamFaultIn(d.graph.nodes, s.defs, d.exposedParams, code, x)
    case RequiredInputUnconnected =>
      RequiredUnfed(s.cat, d.graph.nodes, d.graph.edges, d.exposedInputs, x) || ComponentUnfed(s, d.graph.edges, d.exposedInputs, x)
    case _ => EdgeFaultIn(s, d.graph.edges, code, x)
  }

  ghost predicate ExposedPortFault(s: Scope, d: Definition, code: Code, x: int) {
    InputExposureFaultIn(s, d.graph.edges, d.exposedInputs, code, x) || OutputExposureFaultIn(s, d.exposedOutputs, code, x)
  }

  /** The scope of a definition: its component nodes stand for the definitions it pins. */
  function ScopeOf(cat: Catalog, fetched: Definitions, d: Definition): Scope {
    Scope(cat, NestedDefinitions(d.refs, fetched, d.graph.nodes), d.graph.nodes)
  }

  lemma WiringTold(s: Scope, edges: seq<Edge>, exposed: seq<ExposedPort>, d: Diagnostic)
    ensures d in WiringFaults(TablesOf(s), s.nodes, edges, Slots(exposed)) <==>
      (d == Fault(AmbiguousInput, d.subject) && exists name :: FedByTwoEdges(edges, d.subject, name))
      || (d.path == [] && EdgeFaultIn(s, edges, d.code, d.subject))
      || (d == Fault(RequiredInputUnconnected, d.subject) && ComponentUnfed(s, edges, exposed, d.subject))
  {
    hide TablesOf, EdgesPortFaults, ExposedFaults, Targets, Slots, DuplicateTargets, FedByTwoEdges, EdgeFaultIn, ComponentUnfed;
    EdgesTold(s, edges, d);
    ComponentsTold(s, edges, exposed, d);
    forall id, name ensures (id, name) in DuplicateTargets(edges) <==> FedByTwoEdges(edges, id, name) {
      DuplicateTargetsAre(edges, id, name);
    }
    if name :| FedByTwoEdges(edges, d.subject, name) {
      assert (d.subject, name) in DuplicateTargets(edges);
    }
  }

  lemma ExposureCodes(s: Scope, d: Definition, code: Code, x: int)
    ensures InputExposureFaultIn(s, d.graph.edges, d.exposedInputs, code, x) || OutputExposureFaultIn(s, d.exposedOutputs, code, x)
      ==> code in {ExposedPortTargetMissing, ExposedPortTypeIncompatible, AmbiguousInput}
    ensures ExposedParamFaultIn(d.graph.nodes, s.defs, d.exposedParams, code, x) ==> code in {ExposedParamTargetMissing, ExposedParamSchemaInvalid}
  {
  }

  /** The same, kind by kind. */
  ghost predicate OfSomeKind(s: Scope, d: Definition, f: Diagnostic) {
    || (f.code == UnknownNodeType && UnknownTypeIn(s.cat, d.graph.nodes, f.subject))
    || (f.code == NodeVersionUnavailable && VersionMissingIn(s.cat, d.graph.nodes, f.subject))
    || (f.code == DuplicateExposedPort && (Twice(PortNames(d.exposedInputs), f.subject) || Twice(PortNames(d.exposedOutputs), f.subject)))
    || (f.code == DuplicateExposedParam && Twice(ParamNames(d.exposedParams), f.subject))
    || ExposedPortFault(s, d, f.code, f.subject)
    || ExposedParamFaultIn(d.graph.nodes, s.defs, d.exposedParams, f.code, f.subject)
    || (f.code == AmbiguousInput && exists name :: FedByTwoEdges(d.graph.edges, f.subject, name))
    || EdgeFaultIn(s, d.graph.edges, f.code, f.subject)
    || (f.code == RequiredInputUnconnected && (RequiredUnfed(s.cat, d.graph.nodes, d.graph.edges, d.exposedInputs, f.subject)
                                               || ComponentUnfed(s, d.graph.edges, d.exposedInputs, f.subject)))
  }

  lemma KindsAreCodes(s: Scope, d: Definition, f: Diagnostic)
    ensures OfSomeKind(s, d, f) <==> DefinitionSemanticFault(s, d, f.code, f.subject)
  {
    OtherCodes(s, d.graph.edges, f.code, f.subject);
    ExposureCodes(s, d, f.code, f.subject);
    hide UnknownTypeIn, VersionMissingIn, RequiredUnfed, ComponentUnfed, EdgeFaultIn, InputExposureFaultIn, OutputExposureFaultIn, ExposedParamFaultIn;
    hide FedByTwoEdges, Twice, PortNames, ParamNames;
  }

  lemma NamesFound(d: Definition, f: Diagnostic)
    ensures f in DuplicateExposures(d) <==>
      (f == Fault(DuplicateExposedPort, f.subject) && (Twice(PortNames(d.exposedInputs), f.subject) || Twice(PortNames(d.exposedOutputs), f.subject)))
      || (f == Fault(DuplicateExposedParam, f.subject) && Twice(ParamNames(d.exposedParams), f.subject))
  {
    hide DuplicateNameFaults, Twice, PortNames, ParamNames;
    NamesTold(DuplicateExposedPort, PortNames(d.exposedInputs), f);
    NamesTold(DuplicateExposedPort, PortNames(d.exposedOutputs), f);
    NamesTold(DuplicateExposedParam, ParamNames(d.exposedParams), f);
  }

  /** The registry-level findings of one definition name its faults, and all of them are found. */
  lemma DefinitionSemanticFindings(cat: Catalog, fetched: Definitions, d: Definition, f: Diagnostic)
    ensures f in SemanticFaults(cat, fetched, d) <==> f.path == [] && DefinitionSemanticFault(ScopeOf(cat, fetched, d), d, f.code, f.subject)
  {
    hide NodeTypeFaults, DuplicateExposures, InputExposureFaults, OutputExposureFaults, ExposedParamFaults, WiringFaults, RequiredFaults, Targets, Slots;
    hide UnknownTypeIn, VersionMissingIn, RequiredUnfed, ComponentUnfed, EdgeFaultIn, InputExposureFaultIn, OutputExposureFaultIn, ExposedParamFaultIn;
    hide FedByTwoEdges, Twice, PortNames, ParamNames, Tables, NestedDefinitions, DefinitionSemanticFault;
    var s := ScopeOf(cat, fetched, d);
    assert TablesIn(cat, fetched, d) == TablesOf(s);
    NodeTypesTold(cat, d.graph.nodes, f);
    NamesFound(d, f);
    InputExposuresTold(s, d.graph.edges, d.exposedInputs, f);
    OutputExposuresTold(s, d.exposedOutputs, f);
    ExposedParamsTold(d.graph.nodes, s.defs, d.exposedParams, f);
    WiringTold(s, d.graph.edges, d.exposedInputs, f);
    RequiredTold(cat, d.graph.nodes, d.graph.edges, d.exposedInputs, f);
    KindsAreCodes(s, d, f);
  }
}
