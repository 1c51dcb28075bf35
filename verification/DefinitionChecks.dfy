/** Registry-level checks of one component definition: `_check_definition` of quantize/components/resolve.py. */
module DefinitionChecks {
  import opened Closure
  import opened Collections
  import opened Diagnostics
  import opened Documents
  import opened Evaluator
  import opened PortWiring
  import opened Validation

  /* ---- node types ---- */

  function NodeTypeFault(cat: Catalog, n: Node): Findings {
    if !n.Registered? then {}
    else
      match cat.Resolve(n.typeId, n.version)
      case Resolved(_) => {}
      case UnknownType => {Fault(UnknownNodeType, n.typeId)}
      case VersionUnavailable => {Fault(NodeVersionUnavailable, n.typeId)}
  }

  function NodeTypeFaults(cat: Catalog, nodes: seq<Node>): Findings {
    Union(seq(|nodes|, i requires 0 <= i < |nodes| => NodeTypeFault(cat, nodes[i])))
  }

  method CheckNodeTypes(cat: Catalog, nodes: seq<Node>) returns (faults: Findings)
    ensures faults == NodeTypeFaults(cat, nodes)
  {
    hide Union;
    ghost var rs := seq(|nodes|, i requires 0 <= i < |nodes| => NodeTypeFault(cat, nodes[i]));
    faults := {};
    EmptyPrefix(rs, []);
    for i := 0 to |nodes|
      invariant faults == Union(rs[..i])
    {
      UnionSnoc(rs, i);
      if nodes[i].Registered? {
        match cat.Resolve(nodes[i].typeId, nodes[i].version)
        case Resolved(_) =>
        case UnknownType => faults := faults + {Fault(UnknownNodeType, nodes[i].typeId)};
        case VersionUnavailable => faults := faults + {Fault(NodeVersionUnavailable, nodes[i].typeId)};
      }
    }
    WholePrefix(rs);
  }

  lemma NodeTypesNone(cat: Catalog, nodes: seq<Node>)
    ensures NodeTypeFaults(cat, nodes) == {}
      <==> forall n :: n in nodes && n.Registered? ==> cat.Resolve(n.typeId, n.version).Resolved?
  {
    var rs := seq(|nodes|, i requires 0 <= i < |nodes| => NodeTypeFault(cat, nodes[i]));
    UnionEmpty(rs);
    if NodeTypeFaults(cat, nodes) == {} {
      forall n | n in nodes && n.Registered? ensures cat.Resolve(n.typeId, n.version).Resolved? {
        var i :| 0 <= i < |nodes| && nodes[i] == n;
        assert rs[i] == {};
      }
    }
    if forall n :: n in nodes && n.Registered? ==> cat.Resolve(n.typeId, n.version).Resolved? {
      forall i | 0 <= i < |nodes| ensures rs[i] == {} {
        var n := nodes[i];
        assert n in nodes;
      }
    }
  }

  /* ---- nested definitions ---- */

  /** The key a component node of the owner points at: the first reference with its id. */
  function NestedKey(refs: seq<ComponentRef>, n: Node): Option<ComponentKey> {
    if n.Component? then RefKey(refs, n.ref) else None
  }

  function NestedOf(refs: seq<ComponentRef>, fetched: Definitions, n: Node): Option<Definition> {
    var key := NestedKey(refs, n);
    if key.Some? then Get(fetched, key.value) else None
  }

  /** Component-node id to its fetched definition. */
  function NestedDefinitions(refs: seq<ComponentRef>, fetched: Definitions, nodes: seq<Node>): (r: map<NodeId, Definition>)
    ensures forall id :: Get(r, id) == if id in NodeIds(nodes) then NestedOf(refs, fetched, NodeOf(nodes, id)) else None
  {
    map id | id in NodeIds(nodes) && NestedOf(refs, fetched, NodeOf(nodes, id)).Some? :: NestedOf(refs, fetched, NodeOf(nodes, id)).value
  }

  method FindNested(refs: seq<ComponentRef>, fetched: Definitions, nodes: seq<Node>) returns (defs: map<NodeId, Definition>)
    requires UniqueIds(nodes) && forall n :: n in nodes && n.Component? ==> n.ref in RefIds(refs)
    ensures defs == NestedDefinitions(refs, fetched, nodes)
  {
    defs := map[];
    for i := 0 to |nodes|
      invariant defs == NestedDefinitions(refs, fetched, nodes[..i])
    {
      NestedStep(refs, fetched, nodes, i);
      var node := nodes[i];
      if node.Component? {
        DeclaredKey(refs, node);
        var key := RefKey(refs, node.ref).value;
        if key in fetched {
          defs := defs[node.id := fetched[key]];
        }
      }
    }
    assert nodes[..|nodes|] == nodes;
  }

  lemma DeclaredKey(refs: seq<ComponentRef>, n: Node)
    requires n.Component? && n.ref in RefIds(refs)
    ensures RefKey(refs, n.ref).Some? && RefKey(refs, n.ref).value in KeysOf(refs)
  {
    var r :| r in refs && r.id == n.ref;
    var k :| 0 <= k < |refs| && refs[k] == r;
  }

  lemma NestedStep(refs: seq<ComponentRef>, fetched: Definitions, nodes: seq<Node>, i: nat)
    requires UniqueIds(nodes) && i < |nodes|
    ensures var nested := NestedOf(refs, fetched, nodes[i]);
      var before := NestedDefinitions(refs, fetched, nodes[..i]);
      NestedDefinitions(refs, fetched, nodes[..i + 1]) == if nested.Some? then before[nodes[i].id := nested.value] else before
  {
    hide NestedOf, NestedDefinitions;
    KnownSnoc(nodes, i);
    NotSeenBefore(nodes, i);
    var longer, shorter := nodes[..i + 1], nodes[..i];
    assert longer[..i] == shorter && longer[i] == nodes[i];
    var nested := NestedOf(refs, fetched, nodes[i]);
    var before := NestedDefinitions(refs, fetched, shorter);
    var after := if nested.Some? then before[nodes[i].id := nested.value] else before;
    forall id ensures Get(NestedDefinitions(refs, fetched, longer), id) == Get(after, id) {
    }
    SameMaps(NestedDefinitions(refs, fetched, longer), after);
  }

  /* ---- duplicate exposed names ---- */

  function DuplicateNameFault(code: Code, names: seq<int>, i: nat): Findings
    requires i < |names|
  {
    if names[i] in names[..i] then {Fault(code, names[i])} else {}
  }

  function DuplicateNameFaults(code: Code, names: seq<int>): Findings {
    Union(seq(|names|, i requires 0 <= i < |names| => DuplicateNameFault(code, names, i)))
  }

  method CheckNames(code: Code, names: seq<int>) returns (faults: Findings)
    ensures faults == DuplicateNameFaults(code, names)
  {
    hide Union;
    ghost var rs := seq(|names|, i requires 0 <= i < |names| => DuplicateNameFault(code, names, i));
    faults := {};
    var seen: set<int> := {};
    EmptyPrefix(rs, []);
    for i := 0 to |names|
      invariant faults == Union(rs[..i])
      invariant forall x :: x in seen <==> x in names[..i]
    {
      UnionSnoc(rs, i);
      if names[i] in seen {
        faults := faults + {Fault(code, names[i])};
      }
      seen := seen + {names[i]};
      assert names[..i + 1] == names[..i] + [names[i]];
    }
    WholePrefix(rs);
  }

  lemma NamesNone(code: Code, names: seq<int>)
    ensures DuplicateNameFaults(code, names) == {} <==> Distinct(names)
  {
    var rs := seq(|names|, i requires 0 <= i < |names| => DuplicateNameFault(code, names, i));
    UnionEmpty(rs);
    if DuplicateNameFaults(code, names) == {} {
      forall i, j | 0 <= i < j < |names| ensures names[i] != names[j] {
        assert rs[j] == {};
        assert names[..j][i] == names[i];
      }
    }
  }

  function PortNames(ports: seq<ExposedPort>): seq<int> {
    seq(|ports|, i requires 0 <= i < |ports| => ports[i].name)
  }

  function ParamNames(params: seq<ExposedParam>): seq<int> {
    seq(|params|, i requires 0 <= i < |params| => params[i].name)
  }

  function DuplicateExposures(d: Definition): Findings {
    DuplicateNameFaults(DuplicateExposedPort, PortNames(d.exposedInputs))
    + DuplicateNameFaults(DuplicateExposedPort, PortNames(d.exposedOutputs))
    + DuplicateNameFaults(DuplicateExposedParam, ParamNames(d.exposedParams))
  }

  /* ---- exposed ports ---- */

  function SlotOf(e: ExposedPort): Slot { (e.node, e.port) }

  function Slots(ports: seq<ExposedPort>): (r: set<Slot>)
    ensures forall s :: s in r <==> exists i :: 0 <= i < |ports| && SlotOf(ports[i]) == s
  {
    set i | 0 <= i < |ports| :: SlotOf(ports[i])
  }

  /** The exposure names an existing internal port. */
  predicate HitsPort(table: map<NodeId, PortMap>, e: ExposedPort) {
    Get(table, e.node).Some? && e.port in Get(table, e.node).value
  }

  /** The internal input is fed twice: by an edge, or by an earlier exposure that found its target. */
  predicate FedTwice(table: map<NodeId, PortMap>, edgeTargets: set<Slot>, exposed: seq<ExposedPort>, i: nat)
    requires i < |exposed|
  {
    SlotOf(exposed[i]) in edgeTargets || exists j :: 0 <= j < i && HitsPort(table, exposed[j]) && SlotOf(exposed[j]) == SlotOf(exposed[i])
  }

  function InputExposureFault(t: PortTables, edgeTargets: set<Slot>, exposed: seq<ExposedPort>, i: nat): Findings
    requires i < |exposed|
  {
    var e := exposed[i];
    if !HitsPort(t.inputs, e) then {Fault(ExposedPortTargetMissing, e.name)}
    else
      (if !IsCompatible(e.portType, t.inputs[e.node][e.port]) then {Fault(ExposedPortTypeIncompatible, e.name)} else {})
      + (if FedTwice(t.inputs, edgeTargets, exposed, i) then {Fault(AmbiguousInput, e.name)} else {})
  }

  function InputExposureFaults(t: PortTables, edgeTargets: set<Slot>, exposed: seq<ExposedPort>): Findings {
    Union(seq(|exposed|, i requires 0 <= i < |exposed| => InputExposureFault(t, edgeTargets, exposed, i)))
  }

  ghost predicate FedByExposure(table: map<NodeId, PortMap>, exposed: seq<ExposedPort>, n: nat, s: Slot)
    requires n <= |exposed|
  {
    exists j :: 0 <= j < n && HitsPort(table, exposed[j]) && SlotOf(exposed[j]) == s
  }

  lemma FedStep(table: map<NodeId, PortMap>, exposed: seq<ExposedPort>, n: nat)
    requires n < |exposed|
    ensures forall s :: FedByExposure(table, exposed, n + 1, s) <==>
      FedByExposure(table, exposed, n, s) || (HitsPort(table, exposed[n]) && SlotOf(exposed[n]) == s)
  {
    hide HitsPort;
    forall s ensures FedByExposure(table, exposed, n + 1, s) <==>
      FedByExposure(table, exposed, n, s) || (HitsPort(table, exposed[n]) && SlotOf(exposed[n]) == s)
    {
      if FedByExposure(table, exposed, n, s) {
        var j :| 0 <= j < n && HitsPort(table, exposed[j]) && SlotOf(exposed[j]) == s;
        assert SlotOf(exposed[j]) == s;
      }
    }
  }

  method CheckInputExposures(t: PortTables, edgeTargets: set<Slot>, exposed: seq<ExposedPort>) returns (faults: Findings)
    ensures faults == InputExposureFaults(t, edgeTargets, exposed)
  {
    hide Union, HitsPort, IsCompatible, FedByExposure;
    ghost var rs := seq(|exposed|, i requires 0 <= i < |exposed| => InputExposureFault(t, edgeTargets, exposed, i));
    faults := {};
    var fed: set<Slot> := {};
    EmptyPrefix(rs, []);
    NoneFed(t.inputs, exposed);
    for i := 0 to |exposed|
      invariant faults == Union(rs[..i])
      invariant forall s :: s in fed <==> FedByExposure(t.inputs, exposed, i, s)
    {
      UnionSnoc(rs, i);
      FedStep(t.inputs, exposed, i);
      FedTwiceIs(t.inputs, edgeTargets, exposed, i);
      ghost var before := faults;
      var e := exposed[i];
      if !HitsPort(t.inputs, e) {
        faults := faults + {Fault(ExposedPortTargetMissing, e.name)};
        continue;
      }
      Hit(t.inputs, e);
      if !IsCompatible(e.portType, t.inputs[e.node][e.port]) {
        faults := faults + {Fault(ExposedPortTypeIncompatible, e.name)};
      }
      var target := SlotOf(e);
      if target in fed || target in edgeTargets {
        faults := faults + {Fault(AmbiguousInput, e.name)};
      }
      fed := fed + {target};
      assert faults == before + rs[i];
    }
    WholePrefix(rs);
  }

  lemma NoneFed(table: map<NodeId, PortMap>, exposed: seq<ExposedPort>)
    ensures forall s :: !FedByExposure(table, exposed, 0, s)
  {
  }

  lemma Hit(table: map<NodeId, PortMap>, e: ExposedPort)
    requires HitsPort(table, e)
    ensures e.node in table && e.port in table[e.node]
  {
  }

  lemma FedTwiceIs(table: map<NodeId, PortMap>, edgeTargets: set<Slot>, exposed: seq<ExposedPort>, i: nat)
    requires i < |exposed|
    ensures FedTwice(table, edgeTargets, exposed, i) <==> SlotOf(exposed[i]) in edgeTargets || FedByExposure(table, exposed, i, SlotOf(exposed[i]))
  {
  }

  predicate InputExposureFits(t: PortTables, e: ExposedPort) {
    HitsPort(t.inputs, e) && IsCompatible(e.portType, t.inputs[e.node][e.port])
  }

  predicate OutputExposureFits(t: PortTables, e: ExposedPort) {
    HitsPort(t.outputs, e) && IsCompatible(t.outputs[e.node][e.port], e.portType)
  }

  lemma InputExposureNone(t: PortTables, edgeTargets: set<Slot>, exposed: seq<ExposedPort>, i: nat)
    requires i < |exposed| && InputExposureFault(t, edgeTargets, exposed, i) == {}
    ensures InputExposureFits(t, exposed[i]) && !FedTwice(t.inputs, edgeTargets, exposed, i)
  {
    hide IsCompatible, FedTwice;
    var e := exposed[i];
    assert Fault(ExposedPortTargetMissing, e.name) !in InputExposureFault(t, edgeTargets, exposed, i);
    assert Fault(ExposedPortTypeIncompatible, e.name) !in InputExposureFault(t, edgeTargets, exposed, i);
    assert Fault(AmbiguousInput, e.name) !in InputExposureFault(t, edgeTargets, exposed, i);
  }

  lemma InputExposuresNone(t: PortTables, edgeTargets: set<Slot>, exposed: seq<ExposedPort>)
    requires InputExposureFaults(t, edgeTargets, exposed) == {}
    ensures forall e :: e in exposed ==> InputExposureFits(t, e)
    ensures forall i, j :: 0 <= i < j < |exposed| ==> SlotOf(exposed[i]) != SlotOf(exposed[j])
    ensures Slots(exposed) !! edgeTargets
  {
    hide IsCompatible, InputExposureFault;
    var rs := seq(|exposed|, i requires 0 <= i < |exposed| => InputExposureFault(t, edgeTargets, exposed, i));
    UnionEmpty(rs);
    forall i | 0 <= i < |exposed| ensures InputExposureFits(t, exposed[i]) && !FedTwice(t.inputs, edgeTargets, exposed, i) {
      assert rs[i] == {};
      InputExposureNone(t, edgeTargets, exposed, i);
    }
  }

  function OutputExposureFault(t: PortTables, e: ExposedPort): Findings {
    if !HitsPort(t.outputs, e) then {Fault(ExposedPortTargetMissing, e.name)}
    else if !IsCompatible(t.outputs[e.node][e.port], e.portType) then {Fault(ExposedPortTypeIncompatible, e.name)}
    else {}
  }

  function OutputExposureFaults(t: PortTables, exposed: seq<ExposedPort>): Findings {
    Union(seq(|exposed|, i requires 0 <= i < |exposed| => OutputExposureFault(t, exposed[i])))
  }

  method CheckOutputExposures(t: PortTables, exposed: seq<ExposedPort>) returns (faults: Findings)
    ensures faults == OutputExposureFaults(t, exposed)
  {
    hide Union, IsCompatible;
    ghost var rs := seq(|exposed|, i requires 0 <= i < |exposed| => OutputExposureFault(t, exposed[i]));
    faults := {};
    EmptyPrefix(rs, []);
    for i := 0 to |exposed|
      invariant faults == Union(rs[..i])
    {
      UnionSnoc(rs, i);
      var e := exposed[i];
      if !HitsPort(t.outputs, e) {
        faults := faults + {Fault(ExposedPortTargetMissing, e.name)};
        continue;
      }
      if !IsCompatible(t.outputs[e.node][e.port], e.portType) {
        faults := faults + {Fault(ExposedPortTypeIncompatible, e.name)};
      }
    }
    WholePrefix(rs);
  }

  lemma OutputExposuresNone(t: PortTables, exposed: seq<ExposedPort>)
    ensures OutputExposureFaults(t, exposed) == {} <==> forall e :: e in exposed ==> OutputExposureFits(t, e)
  {
    hide IsCompatible;
    var rs := seq(|exposed|, i requires 0 <= i < |exposed| => OutputExposureFault(t, exposed[i]));
    UnionEmpty(rs);
    if OutputExposureFaults(t, exposed) == {} {
      forall e | e in exposed ensures OutputExposureFits(t, e) {
        var i :| 0 <= i < |exposed| && exposed[i] == e;
        assert rs[i] == {};
      }
    }
    if forall e :: e in exposed ==> OutputExposureFits(t, e) {
      forall i | 0 <= i < |exposed| ensures rs[i] == {} {
        assert exposed[i] in exposed;
      }
    }
  }

  /* ---- exposed parameters ---- */

  function ExposedParamFault(ids: set<NodeId>, defs: map<NodeId, Definition>, p: ExposedParam): Findings {
    if p.node !in ids then {Fault(ExposedParamTargetMissing, p.name)}
    else
      (if p.node in defs && p.param !in ParamNames(defs[p.node].exposedParams) then {Fault(ExposedParamTargetMissing, p.name)} else {})
      + (if !p.schema.wellFormed then {Fault(ExposedParamSchemaInvalid, p.name)} else {})
  }

  function ExposedParamFaults(ids: set<NodeId>, defs: map<NodeId, Definition>, params: seq<ExposedParam>): Findings {
    Union(seq(|params|, i requires 0 <= i < |params| => ExposedParamFault(ids, defs, params[i])))
  }

  method CheckExposedParams(ids: set<NodeId>, defs: map<NodeId, Definition>, params: seq<ExposedParam>) returns (faults: Findings)
    ensures faults == ExposedParamFaults(ids, defs, params)
  {
    hide Union;
    ghost var rs := seq(|params|, i requires 0 <= i < |params| => ExposedParamFault(ids, defs, params[i]));
    faults := {};
    EmptyPrefix(rs, []);
    for i := 0 to |params|
      invariant faults == Union(rs[..i])
    {
      UnionSnoc(rs, i);
      var p := params[i];
      if p.node !in ids {
        faults := faults + {Fault(ExposedParamTargetMissing, p.name)};
        continue;
      }
      if p.node in defs && p.param !in ParamNames(defs[p.node].exposedParams) {
        faults := faults + {Fault(ExposedParamTargetMissing, p.name)};
      }
      if !p.schema.wellFormed {
        faults := faults + {Fault(ExposedParamSchemaInvalid, p.name)};
      }
    }
    WholePrefix(rs);
  }

  /* ---- the definition ---- */

  ghost function SemanticFaultsUnder(cat: Catalog, t: PortTables, defs: map<NodeId, Definition>, d: Definition): Findings {
    NodeTypeFaults(cat, d.graph.nodes) + DuplicateExposures(d)
    + InputExposureFaults(t, Targets(d.graph.edges), d.exposedInputs)
    + OutputExposureFaults(t, d.exposedOutputs)
    + ExposedParamFaults(NodeIds(d.graph.nodes), defs, d.exposedParams)
    + WiringFaults(t, d.graph.nodes, d.graph.edges, Slots(d.exposedInputs))
    + RequiredFaults(cat, Targets(d.graph.edges) + Slots(d.exposedInputs), d.graph.nodes)
  }

  function TablesIn(cat: Catalog, fetched: Definitions, d: Definition): PortTables {
    Tables(cat, NestedDefinitions(d.refs, fetched, d.graph.nodes), d.graph.nodes)
  }

  /** The findings about one definition of the closure. */
  ghost function SemanticFaults(cat: Catalog, fetched: Definitions, d: Definition): Findings {
    SemanticFaultsUnder(cat, TablesIn(cat, fetched, d), NestedDefinitions(d.refs, fetched, d.graph.nodes), d)
  }

  /** `_check_definition`. */
  method CheckDefinition(cat: Catalog, fetched: Definitions, d: Definition) returns (faults: Findings)
    requires GraphOk(d.graph, RefIds(d.refs))
    ensures faults == SemanticFaults(cat, fetched, d)
  {
    hide NodeTypeFaults, DuplicateNameFaults, InputExposureFaults, OutputExposureFaults, ExposedParamFaults, WiringFaults, RequiredFaults;
    hide Tables, NestedDefinitions, Targets, Slots, PortNames, ParamNames, UniqueIds;
    var nodes, edges := d.graph.nodes, d.graph.edges;
    var typeFaults := CheckNodeTypes(cat, nodes);
    var defs := FindNested(d.refs, fetched, nodes);
    var tables := BuildPortTables(nodes, cat, defs);
    var inputNames := CheckNames(DuplicateExposedPort, PortNames(d.exposedInputs));
    var outputNames := CheckNames(DuplicateExposedPort, PortNames(d.exposedOutputs));
    var paramNames := CheckNames(DuplicateExposedParam, ParamNames(d.exposedParams));
    var inputFaults := CheckInputExposures(tables, Targets(edges), d.exposedInputs);
    var outputFaults := CheckOutputExposures(tables, d.exposedOutputs);
    var paramFaults := CheckExposedParams(NodeIds(nodes), defs, d.exposedParams);
    var externallyFed := Slots(d.exposedInputs);
    var wiring := CheckGraphWiring(tables, nodes, edges, externallyFed);
    var required := CheckRequired(cat, Targets(edges) + externallyFed, nodes);
    return typeFaults + (inputNames + outputNames + paramNames) + inputFaults + outputFaults + paramFaults + wiring + required;
  }
}
