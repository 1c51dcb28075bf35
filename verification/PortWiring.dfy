/** Port tables, edge checks and fan-in, shared by definition resolution, semantic validation and the top-level wiring
    check: `build_port_tables`, `duplicate_input_edges`, `_check_graph_wiring`, `_check_required_registered_inputs` of
    quantize/components/resolve.py. */
module PortWiring {
  import opened Collections
  import opened Diagnostics
  import opened Documents
  import opened Evaluator
  import opened Kahn
  import opened Validation

  type PortMap = map<PortName, PortType>
  datatype PortTables = PortTables(outputs: map<NodeId, PortMap>, inputs: map<NodeId, PortMap>)

  /** The output ports of a node that resolves. */
  function NodeOutputs(cat: Catalog, defs: map<NodeId, Definition>, n: Node): Option<PortMap> {
    if n.Registered? then
      (match cat.Resolve(n.typeId, n.version) case Resolved(i) => Some(OutputTypes(i.outputs)) case _ => None)
    else if n.id in defs then Some(ExposedTypes(defs[n.id].exposedOutputs))
    else None
  }

  function NodeInputs(cat: Catalog, defs: map<NodeId, Definition>, n: Node): Option<PortMap> {
    if n.Registered? then
      (match cat.Resolve(n.typeId, n.version) case Resolved(i) => Some(InputTypes(i.inputs)) case _ => None)
    else if n.id in defs then Some(ExposedTypes(defs[n.id].exposedInputs))
    else None
  }

  /** The port tables of a graph; nodes that resolve nowhere are absent. */
  function Tables(cat: Catalog, defs: map<NodeId, Definition>, nodes: seq<Node>): (t: PortTables)
    ensures forall id :: Get(t.outputs, id) == if id in NodeIds(nodes) then NodeOutputs(cat, defs, NodeOf(nodes, id)) else None
    ensures forall id :: Get(t.inputs, id) == if id in NodeIds(nodes) then NodeInputs(cat, defs, NodeOf(nodes, id)) else None
  {
    PortTables(map id | id in NodeIds(nodes) && NodeOutputs(cat, defs, NodeOf(nodes, id)).Some? :: NodeOutputs(cat, defs, NodeOf(nodes, id)).value,
               map id | id in NodeIds(nodes) && NodeInputs(cat, defs, NodeOf(nodes, id)).Some? :: NodeInputs(cat, defs, NodeOf(nodes, id)).value)
  }

  function AddRow(t: PortTables, cat: Catalog, defs: map<NodeId, Definition>, n: Node): PortTables {
    var outputs, inputs := NodeOutputs(cat, defs, n), NodeInputs(cat, defs, n);
    PortTables(if outputs.Some? then t.outputs[n.id := outputs.value] else t.outputs,
               if inputs.Some? then t.inputs[n.id := inputs.value] else t.inputs)
  }

  lemma TablesStep(cat: Catalog, defs: map<NodeId, Definition>, nodes: seq<Node>, i: nat)
    requires UniqueIds(nodes) && i < |nodes|
    ensures Tables(cat, defs, nodes[..i + 1]) == AddRow(Tables(cat, defs, nodes[..i]), cat, defs, nodes[i])
  {
    hide NodeOutputs, NodeInputs, Tables, UniqueIds;
    KnownSnoc(nodes, i);
    NotSeenBefore(nodes, i);
    var longer, shorter := nodes[..i + 1], nodes[..i];
    assert longer[..i] == shorter && longer[i] == nodes[i];
    var a, b := Tables(cat, defs, longer), AddRow(Tables(cat, defs, shorter), cat, defs, nodes[i]);
    forall id ensures Get(a.outputs, id) == Get(b.outputs, id) && Get(a.inputs, id) == Get(b.inputs, id) {
    }
    SameMaps(a.outputs, b.outputs);
    SameMaps(a.inputs, b.inputs);
  }

  method BuildPortTables(nodes: seq<Node>, cat: Catalog, defs: map<NodeId, Definition>) returns (t: PortTables)
    requires UniqueIds(nodes)
    ensures t == Tables(cat, defs, nodes)
  {
    hide Tables;
    t := PortTables(map[], map[]);
    NoRows(cat, defs, nodes);
    for i := 0 to |nodes|
      invariant t == Tables(cat, defs, nodes[..i])
    {
      TablesStep(cat, defs, nodes, i);
      var node := nodes[i];
      var outputs, inputs := NodeOutputs(cat, defs, node), NodeInputs(cat, defs, node);
      if outputs.Some? {
        t := t.(outputs := t.outputs[node.id := outputs.value]);
      }
      if inputs.Some? {
        t := t.(inputs := t.inputs[node.id := inputs.value]);
      }
    }
    assert nodes[..|nodes|] == nodes;
  }

  lemma NoRows(cat: Catalog, defs: map<NodeId, Definition>, nodes: seq<Node>)
    ensures Tables(cat, defs, nodes[..0]) == PortTables(map[], map[])
  {
  }

  /* ---- fan-in ---- */

  function Target(e: Edge): Slot { (e.dst, e.dstPort) }

  function Targets(edges: seq<Edge>): (r: set<Slot>)
    ensures forall s :: s in r <==> exists i :: 0 <= i < |edges| && Target(edges[i]) == s
  {
    set i | 0 <= i < |edges| :: Target(edges[i])
  }

  predicate TargetedBefore(edges: seq<Edge>, j: nat)
    requires j < |edges|
  {
    exists i :: 0 <= i < j && Target(edges[i]) == Target(edges[j])
  }

  /** The input ports that more than one edge targets. */
  function DuplicateTargets(edges: seq<Edge>): (r: set<Slot>)
    ensures forall s :: s in r <==> exists j :: 0 <= j < |edges| && Target(edges[j]) == s && TargetedBefore(edges, j)
  {
    set j | 0 <= j < |edges| && TargetedBefore(edges, j) :: Target(edges[j])
  }

  lemma TargetsSnoc(edges: seq<Edge>, k: nat)
    requires k < |edges|
    ensures Targets(edges[..k + 1]) == Targets(edges[..k]) + {Target(edges[k])}
  {
    var longer, shorter := edges[..k + 1], edges[..k];
    assert longer == shorter + [edges[k]];
    forall s | s in Targets(shorter) ensures s in Targets(longer) {
      var i :| 0 <= i < k && Target(shorter[i]) == s;
      assert Target(longer[i]) == s;
    }
    assert Target(longer[k]) in Targets(longer);
    forall s | s in Targets(longer) ensures s in Targets(shorter) || s == Target(edges[k]) {
      var i :| 0 <= i < |longer| && Target(longer[i]) == s;
      if i < k { assert Target(shorter[i]) == s; }
    }
  }

  lemma BeforeInPrefix(edges: seq<Edge>, k: nat, j: nat)
    requires j < k <= |edges|
    ensures TargetedBefore(edges[..k], j) <==> TargetedBefore(edges, j)
  {
    assert forall i :: 0 <= i < k ==> edges[..k][i] == edges[i];
  }

  lemma BeforeIsTargeted(edges: seq<Edge>, k: nat)
    requires k < |edges|
    ensures TargetedBefore(edges, k) <==> Target(edges[k]) in Targets(edges[..k])
  {
    var shorter := edges[..k];
    assert forall i :: 0 <= i < k ==> shorter[i] == edges[i];
    if Target(edges[k]) in Targets(shorter) {
      var i :| 0 <= i < |shorter| && Target(shorter[i]) == Target(edges[k]);
      assert Target(edges[i]) == Target(edges[k]);
    }
    if TargetedBefore(edges, k) {
      var i :| 0 <= i < k && Target(edges[i]) == Target(edges[k]);
      assert Target(shorter[i]) == Target(edges[k]);
    }
  }

  lemma DuplicatesSnoc(edges: seq<Edge>, k: nat)
    requires k < |edges|
    ensures DuplicateTargets(edges[..k + 1]) ==
            DuplicateTargets(edges[..k]) + (if Target(edges[k]) in Targets(edges[..k]) then {Target(edges[k])} else {})
  {
    hide TargetedBefore, Targets;
    var longer, shorter := edges[..k + 1], edges[..k];
    BeforeIsTargeted(edges, k);
    forall j | 0 <= j <= k ensures TargetedBefore(longer, j) <==> TargetedBefore(edges, j) {
      BeforeInPrefix(edges, k + 1, j);
    }
    forall j | 0 <= j < k ensures TargetedBefore(shorter, j) <==> TargetedBefore(edges, j) {
      BeforeInPrefix(edges, k, j);
    }
    forall s ensures s in DuplicateTargets(longer) <==>
      s in DuplicateTargets(shorter) || (s == Target(edges[k]) && TargetedBefore(edges, k))
    {
      if s in DuplicateTargets(shorter) {
        var j :| 0 <= j < |shorter| && Target(shorter[j]) == s && TargetedBefore(shorter, j);
        assert Target(longer[j]) == s;
      }
      if s in DuplicateTargets(longer) {
        var j :| 0 <= j < |longer| && Target(longer[j]) == s && TargetedBefore(longer, j);
        if j < k { assert Target(shorter[j]) == s; }
      }
      assert Target(longer[k]) == Target(edges[k]);
    }
  }

  method DuplicateInputEdges(edges: seq<Edge>) returns (duplicated: set<Slot>)
    ensures duplicated == DuplicateTargets(edges)
  {
    hide Targets, DuplicateTargets;
    var seen: set<Slot> := {};
    duplicated := {};
    NoTargets(edges);
    for i := 0 to |edges|
      invariant seen == Targets(edges[..i]) && duplicated == DuplicateTargets(edges[..i])
    {
      TargetsSnoc(edges, i);
      DuplicatesSnoc(edges, i);
      var target := Target(edges[i]);
      if target in seen {
        duplicated := duplicated + {target};
      }
      seen := seen + {target};
    }
    assert edges[..|edges|] == edges;
  }

  lemma NoTargets(edges: seq<Edge>)
    ensures Targets(edges[..0]) == {} && DuplicateTargets(edges[..0]) == {}
  {
  }

  /* ---- one edge ---- */

  /** Unknown ports on endpoints that resolve, and incompatible types where both ports exist. */
  function EdgePortFaults(t: PortTables, e: Edge): Findings {
    var src, dst := Get(t.outputs, e.src), Get(t.inputs, e.dst);
    (if src.Some? && e.srcPort !in src.value then {Fault(UnknownOutputPort, e.srcPort)} else {})
    + (if dst.Some? && e.dstPort !in dst.value then {Fault(UnknownInputPort, e.dstPort)} else {})
    + (if src.Some? && e.srcPort in src.value && dst.Some? && e.dstPort in dst.value && !IsCompatible(src.value[e.srcPort], dst.value[e.dstPort])
       then {Fault(IncompatiblePortTypes, e.dstPort)} else {})
  }

  /** The edge connects existing ports of compatible types. */
  predicate EdgeFits(t: PortTables, e: Edge) {
    var src, dst := Get(t.outputs, e.src), Get(t.inputs, e.dst);
    src.Some? && e.srcPort in src.value && dst.Some? && e.dstPort in dst.value && IsCompatible(src.value[e.srcPort], dst.value[e.dstPort])
  }

  lemma EdgePortsNone(t: PortTables, e: Edge)
    requires Get(t.outputs, e.src).Some? && Get(t.inputs, e.dst).Some?
    ensures EdgePortFaults(t, e) == {} <==> EdgeFits(t, e)
  {
    assert Fault(UnknownOutputPort, e.srcPort) in EdgePortFaults(t, e) <==> e.srcPort !in Get(t.outputs, e.src).value;
    assert Fault(UnknownInputPort, e.dstPort) in EdgePortFaults(t, e) <==> e.dstPort !in Get(t.inputs, e.dst).value;
    if e.srcPort in Get(t.outputs, e.src).value && e.dstPort in Get(t.inputs, e.dst).value {
      assert Fault(IncompatiblePortTypes, e.dstPort) in EdgePortFaults(t, e) <==> !EdgeFits(t, e);
    }
  }

  function EdgesPortFaults(t: PortTables, edges: seq<Edge>): Findings {
    Union(seq(|edges|, i requires 0 <= i < |edges| => EdgePortFaults(t, edges[i])))
  }

  method CheckEdgePorts(t: PortTables, edges: seq<Edge>) returns (faults: Findings)
    ensures faults == EdgesPortFaults(t, edges)
  {
    hide Union, IsCompatible;
    ghost var rs := seq(|edges|, i requires 0 <= i < |edges| => EdgePortFaults(t, edges[i]));
    faults := {};
    EmptyPrefix(rs, []);
    for i := 0 to |edges|
      invariant faults == Union(rs[..i])
    {
      UnionSnoc(rs, i);
      var e := edges[i];
      var src, dst := Get(t.outputs, e.src), Get(t.inputs, e.dst);
      if src.Some? && e.srcPort !in src.value {
        faults := faults + {Fault(UnknownOutputPort, e.srcPort)};
      }
      if dst.Some? && e.dstPort !in dst.value {
        faults := faults + {Fault(UnknownInputPort, e.dstPort)};
      }
      if src.Some? && e.srcPort in src.value && dst.Some? && e.dstPort in dst.value && !IsCompatible(src.value[e.srcPort], dst.value[e.dstPort]) {
        faults := faults + {Fault(IncompatiblePortTypes, e.dstPort)};
      }
    }
    WholePrefix(rs);
  }

  lemma EdgesPortNone(t: PortTables, edges: seq<Edge>, e: Edge)
    requires EdgesPortFaults(t, edges) == {} && e in edges
    ensures EdgePortFaults(t, e) == {}
  {
    var rs := seq(|edges|, i requires 0 <= i < |edges| => EdgePortFaults(t, edges[i]));
    UnionEmpty(rs);
    var i :| 0 <= i < |edges| && edges[i] == e;
    assert rs[i] == {};
  }

  /* ---- connectivity ---- */

  /** Required inputs of a registered node that nothing feeds. */
  function UnfedRequired(cat: Catalog, connected: set<Slot>, n: Node): Findings {
    if !n.Registered? then {}
    else
      match cat.Resolve(n.typeId, n.version)
      case Resolved(i) => set p | p in i.inputs && p.required && (n.id, p.name) !in connected :: Fault(RequiredInputUnconnected, p.name)
      case _ => {}
  }

  /** Inputs of a component node that nothing feeds: all of them are required. */
  function UnfedExposed(t: PortTables, connected: set<Slot>, n: Node): Findings {
    if n.Registered? then {}
    else
      match Get(t.inputs, n.id)
      case Some(ports) => set p | p in ports && (n.id, p) !in connected :: Fault(RequiredInputUnconnected, p)
      case None => {}
  }

  function RequiredFaults(cat: Catalog, connected: set<Slot>, nodes: seq<Node>): Findings {
    Union(seq(|nodes|, i requires 0 <= i < |nodes| => UnfedRequired(cat, connected, nodes[i])))
  }

  function ExposedFaults(t: PortTables, connected: set<Slot>, nodes: seq<Node>): Findings {
    Union(seq(|nodes|, i requires 0 <= i < |nodes| => UnfedExposed(t, connected, nodes[i])))
  }

  lemma RequiredNone(cat: Catalog, connected: set<Slot>, nodes: seq<Node>)
    ensures RequiredFaults(cat, connected, nodes) == {} <==> forall n :: n in nodes ==> UnfedRequired(cat, connected, n) == {}
  {
    hide UnfedRequired;
    var rs := seq(|nodes|, i requires 0 <= i < |nodes| => UnfedRequired(cat, connected, nodes[i]));
    UnionEmpty(rs);
    if RequiredFaults(cat, connected, nodes) == {} {
      forall n | n in nodes ensures UnfedRequired(cat, connected, n) == {} {
        var i :| 0 <= i < |nodes| && nodes[i] == n;
        assert rs[i] == {};
      }
    }
  }

  lemma ExposedNone(t: PortTables, connected: set<Slot>, nodes: seq<Node>)
    ensures ExposedFaults(t, connected, nodes) == {} <==> forall n :: n in nodes ==> UnfedExposed(t, connected, n) == {}
  {
    hide UnfedExposed;
    var rs := seq(|nodes|, i requires 0 <= i < |nodes| => UnfedExposed(t, connected, nodes[i]));
    UnionEmpty(rs);
    if ExposedFaults(t, connected, nodes) == {} {
      forall n | n in nodes ensures UnfedExposed(t, connected, n) == {} {
        var i :| 0 <= i < |nodes| && nodes[i] == n;
        assert rs[i] == {};
      }
    }
  }

  /** `_check_required_registered_inputs`. */
  method CheckRequired(cat: Catalog, connected: set<Slot>, nodes: seq<Node>) returns (faults: Findings)
    ensures faults == RequiredFaults(cat, connected, nodes)
  {
    hide Union;
    ghost var rs := seq(|nodes|, i requires 0 <= i < |nodes| => UnfedRequired(cat, connected, nodes[i]));
    faults := {};
    EmptyPrefix(rs, []);
    for i := 0 to |nodes|
      invariant faults == Union(rs[..i])
    {
      UnionSnoc(rs, i);
      if nodes[i].Registered? {
        var found := UnfedRequired(cat, connected, nodes[i]);
        faults := faults + found;
      }
    }
    WholePrefix(rs);
  }

  /** `_check_graph_wiring`. */
  function WiringFaults(t: PortTables, nodes: seq<Node>, edges: seq<Edge>, fed: set<Slot>): Findings {
    (set s | s in DuplicateTargets(edges) :: Fault(AmbiguousInput, s.0))
    + EdgesPortFaults(t, edges) + ExposedFaults(t, Targets(edges) + fed, nodes)
  }

  method CheckGraphWiring(t: PortTables, nodes: seq<Node>, edges: seq<Edge>, fed: set<Slot>) returns (faults: Findings)
    ensures faults == WiringFaults(t, nodes, edges, fed)
  {
    hide Union, EdgesPortFaults, UnfedExposed, DuplicateTargets, Targets;
    var duplicated := DuplicateInputEdges(edges);
    var portFaults := CheckEdgePorts(t, edges);
    var connected := Targets(edges) + fed;
    ghost var rs := seq(|nodes|, i requires 0 <= i < |nodes| => UnfedExposed(t, connected, nodes[i]));
    var unfed: Findings := {};
    EmptyPrefix(rs, []);
    for i := 0 to |nodes|
      invariant unfed == Union(rs[..i])
    {
      UnionSnoc(rs, i);
      unfed := unfed + UnfedExposed(t, connected, nodes[i]);
    }
    WholePrefix(rs);
    return (set s | s in duplicated :: Fault(AmbiguousInput, s.0)) + portFaults + unfed;
  }

  lemma WiringNone(t: PortTables, nodes: seq<Node>, edges: seq<Edge>, fed: set<Slot>)
    requires WiringFaults(t, nodes, edges, fed) == {}
    ensures DuplicateTargets(edges) == {} && EdgesPortFaults(t, edges) == {} && ExposedFaults(t, Targets(edges) + fed, nodes) == {}
  {
    hide EdgesPortFaults, ExposedFaults, DuplicateTargets, Targets;
    assert forall s :: s in DuplicateTargets(edges) ==> Fault(AmbiguousInput, s.0) in WiringFaults(t, nodes, edges, fed);
  }
}
