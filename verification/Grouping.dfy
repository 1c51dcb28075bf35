/** Grouping any set of a document's nodes into a component: the crossing edges become exposed inputs and outputs. */
module Grouping {
  import opened Collections
  import opened Compositionality
  import opened Cycles
  import opened Diagnostics
  import opened Documents
  import opened Evaluator
  import opened Flattening
  import opened Planning
  import opened PortWiring
  import opened Regrouping
  import opened Typing

  /** What is grouped, and under which names: the nodes, the new component node, its reference, and the new definition's
      key. */
  datatype Group = Group(nodes: set<NodeId>, id: NodeId, ref: RefId, key: ComponentKey)

  /** No input port has two incoming edges, as pre-flight requires. */
  ghost predicate NoFanIn(edges: seq<Edge>) {
    forall i, j :: 0 <= i < j < |edges| ==> Target(edges[i]) != Target(edges[j])
  }

  /* ---- the two node lists ---- */

  function Chosen(nodes: seq<Node>, ids: set<NodeId>, wanted: bool): (r: seq<Node>)
    ensures forall n :: n in r <==> n in nodes && (n.id in ids <==> wanted)
  {
    if nodes == [] then []
    else
      var last := nodes[|nodes| - 1];
      assert forall n :: n in nodes <==> n in nodes[..|nodes| - 1] || n == last;
      Chosen(nodes[..|nodes| - 1], ids, wanted) + if (last.id in ids) == wanted then [last] else []
  }

  lemma {:induction false} ChosenUnique(nodes: seq<Node>, ids: set<NodeId>, wanted: bool)
    requires UniqueIds(nodes)
    ensures UniqueIds(Chosen(nodes, ids, wanted))
  {
    if nodes != [] {
      var front, last := nodes[..|nodes| - 1], nodes[|nodes| - 1];
      ChosenUnique(front, ids, wanted);
      forall n | n in Chosen(front, ids, wanted) ensures n.id != last.id {
        var i :| 0 <= i < |front| && front[i] == n;
        assert nodes[i] == n;
      }
    }
  }

  lemma ChosenIds(nodes: seq<Node>, ids: set<NodeId>, wanted: bool)
    ensures forall x :: x in NodeIds(Chosen(nodes, ids, wanted)) <==> x in NodeIds(nodes) && (x in ids <==> wanted)
  {
    forall x | x in NodeIds(nodes) && (x in ids <==> wanted) ensures x in NodeIds(Chosen(nodes, ids, wanted)) {
      var n :| n in nodes && n.id == x;
      assert n in Chosen(nodes, ids, wanted);
    }
  }

  lemma ChosenNode(nodes: seq<Node>, ids: set<NodeId>, wanted: bool, x: NodeId)
    requires UniqueIds(nodes) && x in NodeIds(nodes) && (x in ids <==> wanted)
    ensures x in NodeIds(Chosen(nodes, ids, wanted)) && NodeOf(Chosen(nodes, ids, wanted), x) == NodeOf(nodes, x)
  {
    var n := NodeOf(nodes, x);
    ChosenUnique(nodes, ids, wanted);
    assert n in Chosen(nodes, ids, wanted);
    NodeOfUnique(Chosen(nodes, ids, wanted), n);
  }

  /* ---- the edges ---- */

  predicate IsInner(s: set<NodeId>, e: Edge) {
    e.src in s && e.dst in s
  }

  /** A crossing edge is cut at the component, under its own position as the exposed name. */
  function Outward(g: Group, e: Edge, i: nat): Edge {
    if e.dst in g.nodes then Edge(e.src, e.srcPort, g.id, i)
    else if e.src in g.nodes then Edge(g.id, i, e.dst, e.dstPort)
    else e
  }

  function InnerEdges(edges: seq<Edge>, s: set<NodeId>, n: nat): (r: seq<Edge>)
    requires n <= |edges|
    ensures forall e :: e in r <==> exists i :: 0 <= i < n && edges[i] == e && IsInner(s, edges[i])
  {
    if n == 0 then []
    else
      var before := InnerEdges(edges, s, n - 1);
      var e := edges[n - 1];
      var r := if IsInner(s, e) then before + [e] else before;
      assert forall x :: x in r ==> exists i :: 0 <= i < n && edges[i] == x && IsInner(s, edges[i]);
      r
  }

  function OuterEdges(edges: seq<Edge>, g: Group, n: nat): (r: seq<Edge>)
    requires n <= |edges|
    ensures forall f :: f in r <==> exists i :: 0 <= i < n && !IsInner(g.nodes, edges[i]) && f == Outward(g, edges[i], i)
  {
    if n == 0 then []
    else
      var before := OuterEdges(edges, g, n - 1);
      var e := edges[n - 1];
      var r := if IsInner(g.nodes, e) then before else before + [Outward(g, e, n - 1)];
      assert forall f :: f in r ==> exists i :: 0 <= i < n && !IsInner(g.nodes, edges[i]) && f == Outward(g, edges[i], i);
      r
  }

  /* ---- the exposures ---- */

  predicate CrossesIn(s: set<NodeId>, e: Edge) {
    e.src !in s && e.dst in s
  }

  predicate CrossesOut(s: set<NodeId>, e: Edge) {
    e.src in s && e.dst !in s
  }

  /** An exposed port has the type of the inside port it maps to. */
  function InPort(cat: Catalog, inst: Instance, e: Edge, i: nat): ExposedPort {
    var t := if e.dst in inst.Ids() && e.dstPort in InputTable(cat, inst, e.dst) then InputTable(cat, inst, e.dst)[e.dstPort] else AssetSetType;
    ExposedPort(i, t, e.dst, e.dstPort)
  }

  function OutPort(cat: Catalog, inst: Instance, e: Edge, i: nat): ExposedPort {
    var t := if e.src in inst.Ids() && e.srcPort in OutputTable(cat, inst, e.src) then OutputTable(cat, inst, e.src)[e.srcPort] else AssetSetType;
    ExposedPort(i, t, e.src, e.srcPort)
  }

  function InPorts(cat: Catalog, inst: Instance, s: set<NodeId>, n: nat): (r: seq<ExposedPort>)
    requires n <= |inst.Edges()|
    ensures forall x :: x in r <==> exists i :: 0 <= i < n && CrossesIn(s, inst.Edges()[i]) && x == InPort(cat, inst, inst.Edges()[i], i)
    ensures DistinctNames(r)
  {
    if n == 0 then []
    else
      var before := InPorts(cat, inst, s, n - 1);
      var e := inst.Edges()[n - 1];
      assert forall x :: x in before ==> x.name < n - 1;
      assert forall k :: 0 <= k < |before| ==> before[k] in before;
      var r := if CrossesIn(s, e) then before + [InPort(cat, inst, e, n - 1)] else before;
      assert forall x :: x in r ==> exists i :: 0 <= i < n && CrossesIn(s, inst.Edges()[i]) && x == InPort(cat, inst, inst.Edges()[i], i);
      r
  }

  function OutPorts(cat: Catalog, inst: Instance, s: set<NodeId>, n: nat): (r: seq<ExposedPort>)
    requires n <= |inst.Edges()|
    ensures forall x :: x in r <==> exists i :: 0 <= i < n && CrossesOut(s, inst.Edges()[i]) && x == OutPort(cat, inst, inst.Edges()[i], i)
    ensures DistinctNames(r)
  {
    if n == 0 then []
    else
      var before := OutPorts(cat, inst, s, n - 1);
      var e := inst.Edges()[n - 1];
      assert forall x :: x in before ==> x.name < n - 1;
      assert forall k :: 0 <= k < |before| ==> before[k] in before;
      var r := if CrossesOut(s, e) then before + [OutPort(cat, inst, e, n - 1)] else before;
      assert forall x :: x in r ==> exists i :: 0 <= i < n && CrossesOut(s, inst.Edges()[i]) && x == OutPort(cat, inst, inst.Edges()[i], i);
      r
  }

  /* ---- the construction ---- */

  /** The component: the chosen nodes, the edges among them, and the exposures. */
  function Inside(cat: Catalog, inst: Instance, g: Group): Instance {
    var n := |inst.Edges()|;
    Instance(Definition(g.key, true, inst.definition.refs, Graph(Chosen(inst.Nodes(), g.nodes, true), InnerEdges(inst.Edges(), g.nodes, n)),
                        InPorts(cat, inst, g.nodes, n), OutPorts(cat, inst, g.nodes, n), []),
             Restrict(inst.params, g.nodes), Restrict(inst.children, g.nodes))
  }

  /** The document: the other nodes and the component node, with the crossing edges led to it. */
  function Grouped(cat: Catalog, inst: Instance, g: Group): Instance {
    Instance(inst.definition.(refs := inst.definition.refs + [ComponentRef(g.ref, g.key)],
                              graph := Graph(Chosen(inst.Nodes(), g.nodes, false) + [Component(g.id, g.ref, map[])],
                                             OuterEdges(inst.Edges(), g, |inst.Edges()|))),
             (inst.params - g.nodes)[g.id := map[]], (inst.children - g.nodes)[g.id := Inside(cat, inst, g)])
  }

  /** The set can be grouped: the new node's id is unused, and no edge path leaves the set and comes back. */
  ghost predicate Groupable(inst: Instance, g: Group) {
    && g.id !in inst.Ids() && NoFanIn(inst.Edges())
    && Acyclic(EdgePairs(OuterEdges(inst.Edges(), g, |inst.Edges()|)))
  }

  /* ---- one source per port, before and after ---- */

  lemma SourceIs(edges: seq<Edge>, e: Edge)
    requires NoFanIn(edges) && e in edges
    ensures SourceOf(edges, e.dst, e.dstPort) == Some((e.src, e.srcPort))
  {
    var r := SourceOf(edges, e.dst, e.dstPort);
    var f := Edge(r.value.0, r.value.1, e.dst, e.dstPort);
    var i :| 0 <= i < |edges| && edges[i] == e;
    var j :| 0 <= j < |edges| && edges[j] == f;
    assert Target(edges[i]) == Target(edges[j]);
  }

  lemma {:induction false} InnerNoFanIn(edges: seq<Edge>, s: set<NodeId>, n: nat)
    requires n <= |edges| && NoFanIn(edges)
    ensures NoFanIn(InnerEdges(edges, s, n))
  {
    if n > 0 {
      var before := InnerEdges(edges, s, n - 1);
      InnerNoFanIn(edges, s, n - 1);
      forall k | 0 <= k < |before| ensures Target(before[k]) != Target(edges[n - 1]) {
        assert before[k] in before;
        var i :| 0 <= i < n - 1 && edges[i] == before[k];
        assert Target(edges[i]) != Target(edges[n - 1]);
      }
    }
  }

  lemma {:induction false} OuterNoFanIn(edges: seq<Edge>, g: Group, n: nat)
    requires n <= |edges| && NoFanIn(edges) && forall e :: e in edges ==> e.dst != g.id
    ensures NoFanIn(OuterEdges(edges, g, n))
  {
    if n > 0 {
      var before := OuterEdges(edges, g, n - 1);
      OuterNoFanIn(edges, g, n - 1);
      forall k | 0 <= k < |before| ensures Target(before[k]) != Target(Outward(g, edges[n - 1], n - 1)) {
        assert before[k] in before;
        var i :| 0 <= i < n - 1 && before[k] == Outward(g, edges[i], i);
        assert Target(edges[i]) != Target(edges[n - 1]) && edges[i] in edges && edges[n - 1] in edges;
      }
    }
  }

  /* ---- the nodes and their tables ---- */

  lemma EdgeEnds(inst: Instance, e: Edge)
    requires Within(EdgePairs(inst.Edges()), inst.Ids()) && e in inst.Edges()
    ensures e.src in inst.Ids() && e.dst in inst.Ids()
  {
    assert (e.src, e.dst) in EdgePairs(inst.Edges());
  }

  lemma {:induction false} NodeBefore(nodes: seq<Node>, last: Node, id: NodeId)
    requires id in NodeIds(nodes) && id != last.id
    ensures id in NodeIds(nodes + [last]) && NodeOf(nodes + [last], id) == NodeOf(nodes, id)
  {
    var n := NodeOf(nodes, id);
    assert n in nodes + [last];
    assert (nodes + [last])[..|nodes|] == nodes;
  }

  /** A node left outside is the same node, with the same ports. */
  lemma OutsideNode(cat: Catalog, inst: Instance, g: Group, id: NodeId)
    requires UniqueIds(inst.Nodes()) && g.id !in inst.Ids() && id in inst.Ids() && id !in g.nodes
    ensures var h := Grouped(cat, inst, g);
      && id in h.Ids() && NodeOf(h.Nodes(), id) == NodeOf(inst.Nodes(), id)
      && (id in h.children <==> id in inst.children) && (id in inst.children ==> h.children[id] == inst.children[id])
      && InputTable(cat, h, id) == InputTable(cat, inst, id) && OutputTable(cat, h, id) == OutputTable(cat, inst, id)
  {
    hide InnerEdges, OuterEdges, InPorts, OutPorts, NodeOf, Chosen;
    ChosenIds(inst.Nodes(), g.nodes, false);
    ChosenNode(inst.Nodes(), g.nodes, false, id);
    NodeBefore(Chosen(inst.Nodes(), g.nodes, false), Component(g.id, g.ref, map[]), id);
  }

  /** So is a node moved inside. */
  lemma InsideNode(cat: Catalog, inst: Instance, g: Group, id: NodeId)
    requires UniqueIds(inst.Nodes()) && id in inst.Ids() && id in g.nodes
    ensures var c := Inside(cat, inst, g);
      && id in c.Ids() && NodeOf(c.Nodes(), id) == NodeOf(inst.Nodes(), id)
      && (id in c.children <==> id in inst.children) && (id in inst.children ==> c.children[id] == inst.children[id])
      && InputTable(cat, c, id) == InputTable(cat, inst, id) && OutputTable(cat, c, id) == OutputTable(cat, inst, id)
  {
    hide InnerEdges, OuterEdges, InPorts, OutPorts, NodeOf, Chosen;
    ChosenIds(inst.Nodes(), g.nodes, true);
    ChosenNode(inst.Nodes(), g.nodes, true, id);
  }

  /** The new node is the component. */
  lemma GroupNode(cat: Catalog, inst: Instance, g: Group)
    requires UniqueIds(inst.Nodes()) && g.id !in inst.Ids()
    ensures var h := Grouped(cat, inst, g);
      && UniqueIds(h.Nodes()) && g.id in h.Ids() && NodeOf(h.Nodes(), g.id) == Component(g.id, g.ref, map[])
      && g.id in h.children && h.children[g.id] == Inside(cat, inst, g)
  {
    hide InnerEdges, OuterEdges, InPorts, OutPorts;
    var outside := Chosen(inst.Nodes(), g.nodes, false);
    ChosenUnique(inst.Nodes(), g.nodes, false);
    ChosenIds(inst.Nodes(), g.nodes, false);
    assert forall k :: 0 <= k < |outside| ==> outside[k] in outside;
    var c := Component(g.id, g.ref, map[]);
    assert c in outside + [c];
    assert (outside + [c])[|outside|] == c;
  }

  /** The document's nodes are those left outside, and the component. */
  lemma GroupedIds(cat: Catalog, inst: Instance, g: Group, id: NodeId)
    requires UniqueIds(inst.Nodes()) && g.id !in inst.Ids()
    ensures id in Grouped(cat, inst, g).Ids() <==> id == g.id || (id in inst.Ids() && id !in g.nodes)
    ensures id in Inside(cat, inst, g).Ids() <==> id in inst.Ids() && id in g.nodes
  {
    hide InnerEdges, OuterEdges, InPorts, OutPorts, NodeOf, Chosen;
    ChosenIds(inst.Nodes(), g.nodes, false);
    ChosenIds(inst.Nodes(), g.nodes, true);
    var outside, c := Chosen(inst.Nodes(), g.nodes, false), Component(g.id, g.ref, map[]);
    assert forall n :: n in outside + [c] <==> n in outside || n == c;
    if id == g.id {
      assert c in outside + [c];
    } else if id in NodeIds(outside) {
      var n :| n in outside && n.id == id;
      assert n in outside + [c];
    }
  }

  /* ---- well-wiredness ---- */

  /** Fewer pairs, fewer cycles. */
  lemma SubsetAcyclic(a: Pairs, b: Pairs)
    requires Acyclic(b) && a <= b
    ensures Acyclic(a)
  {
    forall w ensures !ClosedWalk(a, w) {
      assert !ClosedWalk(b, w);
    }
  }

  /** Exposed inputs: an edge that enters the set gives an exposed port, named after it, of the type of the port inside. */
  lemma InPortAt(cat: Catalog, inst: Instance, g: Group, i: nat)
    requires i < |inst.Edges()| && CrossesIn(g.nodes, inst.Edges()[i]) && EdgeTyped(cat, inst, inst.Edges()[i])
    ensures var ports, e := InPorts(cat, inst, g.nodes, |inst.Edges()|), inst.Edges()[i];
      && ExposedPort(i, InputTable(cat, inst, e.dst)[e.dstPort], e.dst, e.dstPort) in ports
      && i in ExposedTypes(ports) && ExposedTypes(ports)[i] == InputTable(cat, inst, e.dst)[e.dstPort]
  {
    hide InputTable, InPorts, ExposedTypes;
    var ports, e := InPorts(cat, inst, g.nodes, |inst.Edges()|), inst.Edges()[i];
    assert InPort(cat, inst, e, i) in ports;
    var k :| 0 <= k < |ports| && ports[k] == InPort(cat, inst, e, i);
    ExposedTypeAt(ports, k);
  }

  lemma OutPortAt(cat: Catalog, inst: Instance, g: Group, i: nat)
    requires i < |inst.Edges()| && CrossesOut(g.nodes, inst.Edges()[i]) && EdgeTyped(cat, inst, inst.Edges()[i])
    ensures var ports, e := OutPorts(cat, inst, g.nodes, |inst.Edges()|), inst.Edges()[i];
      && ExposedPort(i, OutputTable(cat, inst, e.src)[e.srcPort], e.src, e.srcPort) in ports
      && i in ExposedTypes(ports) && ExposedTypes(ports)[i] == OutputTable(cat, inst, e.src)[e.srcPort]
  {
    hide OutputTable, OutPorts, ExposedTypes;
    var ports, e := OutPorts(cat, inst, g.nodes, |inst.Edges()|), inst.Edges()[i];
    assert OutPort(cat, inst, e, i) in ports;
    var k :| 0 <= k < |ports| && ports[k] == OutPort(cat, inst, e, i);
    ExposedTypeAt(ports, k);
  }

  lemma OuterEdgeTyped(cat: Catalog, inst: Instance, g: Group, i: nat)
    requires UniqueIds(inst.Nodes()) && g.id !in inst.Ids()
    requires i < |inst.Edges()| && !IsInner(g.nodes, inst.Edges()[i]) && EdgeTyped(cat, inst, inst.Edges()[i])
    ensures EdgeTyped(cat, Grouped(cat, inst, g), Outward(g, inst.Edges()[i], i))
  {
    var h, e := Grouped(cat, inst, g), inst.Edges()[i];
    GroupNode(cat, inst, g);
    GroupTables(cat, inst, g);
    hide NodeIds, NodeOf, InputTable, OutputTable, Grouped, ExposedTypes, InPorts, OutPorts, UniqueIds;
    if e.src !in g.nodes { OutsideNode(cat, inst, g, e.src); } else { OutPortAt(cat, inst, g, i); }
    if e.dst !in g.nodes { OutsideNode(cat, inst, g, e.dst); } else { InPortAt(cat, inst, g, i); }
  }

  lemma GroupTables(cat: Catalog, inst: Instance, g: Group)
    requires UniqueIds(inst.Nodes()) && g.id !in inst.Ids()
    ensures var h := Grouped(cat, inst, g);
      && g.id in h.Ids()
      && InputTable(cat, h, g.id) == ExposedTypes(InPorts(cat, inst, g.nodes, |inst.Edges()|))
      && OutputTable(cat, h, g.id) == ExposedTypes(OutPorts(cat, inst, g.nodes, |inst.Edges()|))
  {
    GroupNode(cat, inst, g);
    hide NodeIds, NodeOf, ExposedTypes, InPorts, OutPorts, UniqueIds, InnerEdges, OuterEdges, Chosen;
  }

  /** Whatever an edge fed is fed by an edge or an exposure, on its side of the cut. */
  lemma StillFed(cat: Catalog, inst: Instance, g: Group, id: NodeId, port: PortName)
    requires Within(EdgePairs(inst.Edges()), inst.Ids()) && g.id !in inst.Ids() && inst.definition.exposedInputs == []
    requires Fed(inst, id, port)
    ensures id !in g.nodes ==> Fed(Grouped(cat, inst, g), id, port)
    ensures id in g.nodes ==> Fed(Inside(cat, inst, g), id, port)
  {
    hide InnerEdges, OuterEdges, InPorts, OutPorts, Chosen, InputTable, OutputTable;
    var e :| e in inst.Edges() && e.dst == id && e.dstPort == port;
    EdgeEnds(inst, e);
    var n := |inst.Edges()|;
    var i :| 0 <= i < n && inst.Edges()[i] == e;
    if id !in g.nodes {
      assert Outward(g, e, i) in Grouped(cat, inst, g).Edges();
    } else if e.src in g.nodes {
      assert e in Inside(cat, inst, g).Edges();
    } else {
      var x := InPort(cat, inst, e, i);
      assert CrossesIn(g.nodes, e);
      assert x in InPorts(cat, inst, g.nodes, n);
      assert x.node == id && x.port == port;
    }
  }

  lemma InsideEdge(cat: Catalog, inst: Instance, g: Group, e: Edge)
    requires GraphWired(cat, inst) && g.id !in inst.Ids() && e in Inside(cat, inst, g).Edges()
    ensures e in inst.Edges() && EdgeTyped(cat, Inside(cat, inst, g), e)
  {
    hide InputTable, OutputTable, InPorts, OutPorts, Chosen, InnerEdges, RegisteredReady, ComponentReady, NodeOf, Acyclic;
    var i :| 0 <= i < |inst.Edges()| && inst.Edges()[i] == e && IsInner(g.nodes, inst.Edges()[i]);
    assert EdgeTyped(cat, inst, e);
    InsideNode(cat, inst, g, e.src);
    InsideNode(cat, inst, g, e.dst);
  }

  lemma InsideInput(cat: Catalog, inst: Instance, g: Group, x: ExposedPort)
    requires GraphWired(cat, inst) && g.id !in inst.Ids() && x in Inside(cat, inst, g).definition.exposedInputs
    ensures InputExposureTyped(cat, Inside(cat, inst, g), x)
  {
    hide InputTable, OutputTable, InPorts, OutPorts, Chosen, InnerEdges, RegisteredReady, ComponentReady, NodeOf, Acyclic;
    var i :| 0 <= i < |inst.Edges()| && CrossesIn(g.nodes, inst.Edges()[i]) && x == InPort(cat, inst, inst.Edges()[i], i);
    assert EdgeTyped(cat, inst, inst.Edges()[i]);
    InsideNode(cat, inst, g, x.node);
  }

  lemma InsideOutput(cat: Catalog, inst: Instance, g: Group, x: ExposedPort)
    requires GraphWired(cat, inst) && g.id !in inst.Ids() && x in Inside(cat, inst, g).definition.exposedOutputs
    ensures OutputExposureTyped(cat, Inside(cat, inst, g), x)
  {
    hide InputTable, OutputTable, InPorts, OutPorts, Chosen, InnerEdges, RegisteredReady, ComponentReady, NodeOf, Acyclic;
    var i :| 0 <= i < |inst.Edges()| && CrossesOut(g.nodes, inst.Edges()[i]) && x == OutPort(cat, inst, inst.Edges()[i], i);
    assert EdgeTyped(cat, inst, inst.Edges()[i]);
    InsideNode(cat, inst, g, x.node);
  }

  lemma GroupableId(inst: Instance, g: Group)
    requires Groupable(inst, g)
    ensures g.id !in inst.Ids() && NoFanIn(inst.Edges())
  {
  }

  lemma InsideRegistered(cat: Catalog, inst: Instance, g: Group, x: Node)
    requires GraphWired(cat, inst) && TopLevel(inst) && g.id !in inst.Ids() && x in Inside(cat, inst, g).Nodes() && x.Registered?
    ensures RegisteredReady(cat, Inside(cat, inst, g), x)
  {
    hide Fed, Inside, Chosen, InnerEdges, InPorts, OutPorts;
    assert x in inst.Nodes() && x.id in g.nodes by { InsideHolds(cat, inst, g, x); }
    assert RegisteredReady(cat, inst, x);
    var i := cat.Resolve(x.typeId, x.version).implementation;
    forall p | p in i.inputs && p.required ensures Fed(Inside(cat, inst, g), x.id, p.name) {
      StillFed(cat, inst, g, x.id, p.name);
    }
  }

  lemma InsideHolds(cat: Catalog, inst: Instance, g: Group, x: Node)
    ensures x in Inside(cat, inst, g).Nodes() <==> x in inst.Nodes() && x.id in g.nodes
  {
  }

  lemma InsideComponent(cat: Catalog, inst: Instance, g: Group, id: NodeId)
    requires GraphWired(cat, inst) && TopLevel(inst) && g.id !in inst.Ids() && id in ComponentIds(inst) && id in g.nodes
    ensures ComponentReady(Inside(cat, inst, g), id)
  {
    hide Fed, Chosen, InnerEdges, InPorts, OutPorts, DistinctNames, NodeOf;
    var c := Inside(cat, inst, g);
    assert ComponentReady(inst, id);
    InsideNode(cat, inst, g, id);
    forall e | e in c.children[id].definition.exposedInputs ensures Fed(c, id, e.name) {
      StillFed(cat, inst, g, id, e.name);
    }
  }

  /** The graph inside is well wired. */
  lemma InsideWired(cat: Catalog, inst: Instance, g: Group)
    requires GraphWired(cat, inst) && TopLevel(inst) && Groupable(inst, g)
    ensures GraphWired(cat, Inside(cat, inst, g))
    ensures forall id :: id in ComponentIds(Inside(cat, inst, g)) ==> id in ComponentIds(inst) && id in g.nodes
  {
    hide InputTable, OutputTable, InnerEdges, OuterEdges, InPorts, OutPorts, Chosen, RegisteredReady, ComponentReady, NodeOf, Acyclic;
    hide EdgeTyped, InputExposureTyped, OutputExposureTyped, Inside;
    var c := Inside(cat, inst, g);
    assert UniqueIds(c.Nodes()) by { InsideUnique(cat, inst, g); }
    forall e | e in c.Edges() ensures e in inst.Edges() && EdgeTyped(cat, c, e) {
      InsideEdge(cat, inst, g, e);
    }
    assert Within(EdgePairs(c.Edges()), c.Ids()) by { TypedWithin(cat, c); }
    SubsetAcyclic(EdgePairs(c.Edges()), EdgePairs(inst.Edges()));
    forall x | x in c.definition.exposedInputs ensures InputExposureTyped(cat, c, x) {
      InsideInput(cat, inst, g, x);
    }
    forall x | x in c.definition.exposedOutputs ensures OutputExposureTyped(cat, c, x) {
      InsideOutput(cat, inst, g, x);
    }
    forall x | x in c.Nodes() && x.Registered? ensures RegisteredReady(cat, c, x) {
      InsideRegistered(cat, inst, g, x);
    }
    forall id | id in ComponentIds(c) ensures ComponentReady(c, id) && id in ComponentIds(inst) && id in g.nodes {
      GroupedIds(cat, inst, g, id);
      InsideNode(cat, inst, g, id);
      InsideComponent(cat, inst, g, id);
    }
  }

  lemma InsideUnique(cat: Catalog, inst: Instance, g: Group)
    requires UniqueIds(inst.Nodes())
    ensures UniqueIds(Inside(cat, inst, g).Nodes())
  {
    ChosenUnique(inst.Nodes(), g.nodes, true);
  }

  lemma TypedWithin(cat: Catalog, inst: Instance)
    requires forall e :: e in inst.Edges() ==> EdgeTyped(cat, inst, e)
    ensures Within(EdgePairs(inst.Edges()), inst.Ids())
  {
    hide InputTable, OutputTable, NodeOf;
    forall p | p in EdgePairs(inst.Edges()) ensures p.0 in inst.Ids() && p.1 in inst.Ids() {
      var e :| e in inst.Edges() && p == (e.src, e.dst);
      assert EdgeTyped(cat, inst, e);
    }
  }

  lemma OutsideHolds(cat: Catalog, inst: Instance, g: Group, x: Node)
    ensures x in Grouped(cat, inst, g).Nodes() ==> (x in inst.Nodes() && x.id !in g.nodes) || x == Component(g.id, g.ref, map[])
  {
    hide OuterEdges, Inside;
  }

  lemma OutsideRegistered(cat: Catalog, inst: Instance, g: Group, x: Node)
    requires GraphWired(cat, inst) && TopLevel(inst) && g.id !in inst.Ids() && x in Grouped(cat, inst, g).Nodes() && x.Registered?
    ensures RegisteredReady(cat, Grouped(cat, inst, g), x)
  {
    hide Fed, Grouped, Acyclic, ComponentReady, EdgeTyped;
    OutsideHolds(cat, inst, g, x);
    assert RegisteredReady(cat, inst, x);
    var i := cat.Resolve(x.typeId, x.version).implementation;
    forall p | p in i.inputs && p.required ensures Fed(Grouped(cat, inst, g), x.id, p.name) {
      StillFed(cat, inst, g, x.id, p.name);
    }
  }

  lemma OutsideComponent(cat: Catalog, inst: Instance, g: Group, id: NodeId)
    requires GraphWired(cat, inst) && TopLevel(inst) && g.id !in inst.Ids() && id in ComponentIds(inst) && id !in g.nodes
    ensures ComponentReady(Grouped(cat, inst, g), id)
  {
    hide Fed, Grouped, DistinctNames, NodeOf, Acyclic, RegisteredReady, EdgeTyped;
    var h := Grouped(cat, inst, g);
    assert ComponentReady(inst, id);
    OutsideNode(cat, inst, g, id);
    forall e | e in h.children[id].definition.exposedInputs ensures Fed(h, id, e.name) {
      StillFed(cat, inst, g, id, e.name);
    }
  }

  /** Every exposed input of the component is fed by the edge it was cut from. */
  lemma GroupReady(cat: Catalog, inst: Instance, g: Group)
    requires UniqueIds(inst.Nodes()) && g.id !in inst.Ids()
    ensures ComponentReady(Grouped(cat, inst, g), g.id)
  {
    var h, n := Grouped(cat, inst, g), |inst.Edges()|;
    GroupNode(cat, inst, g);
    hide NodeIds, NodeOf, InPorts, OutPorts, OuterEdges, InnerEdges, Chosen, UniqueIds;
    forall x | x in InPorts(cat, inst, g.nodes, n) ensures Fed(h, g.id, x.name) {
      var i :| 0 <= i < n && CrossesIn(g.nodes, inst.Edges()[i]) && x == InPort(cat, inst, inst.Edges()[i], i);
      var f := Outward(g, inst.Edges()[i], i);
      assert f in h.Edges();
    }
  }

  lemma OutsideEdge(cat: Catalog, inst: Instance, g: Group, f: Edge)
    requires GraphWired(cat, inst) && g.id !in inst.Ids() && f in Grouped(cat, inst, g).Edges()
    ensures EdgeTyped(cat, Grouped(cat, inst, g), f)
  {
    hide InputTable, OutputTable, NodeOf, Inside, OuterEdges, Chosen, Acyclic, RegisteredReady, ComponentReady, EdgeTyped;
    var i :| 0 <= i < |inst.Edges()| && !IsInner(g.nodes, inst.Edges()[i]) && f == Outward(g, inst.Edges()[i], i);
    OuterEdgeTyped(cat, inst, g, i);
  }

  /** The document's graph is well wired. */
  lemma OutsideWired(cat: Catalog, inst: Instance, g: Group)
    requires GraphWired(cat, inst) && TopLevel(inst) && Groupable(inst, g)
    ensures GraphWired(cat, Grouped(cat, inst, g)) && TopLevel(Grouped(cat, inst, g))
    ensures forall id :: id in ComponentIds(Grouped(cat, inst, g)) ==> id == g.id || (id in ComponentIds(inst) && id !in g.nodes)
  {
    hide InputTable, OutputTable, InnerEdges, OuterEdges, Inside, Chosen, RegisteredReady, ComponentReady, NodeOf, Acyclic, EdgeTyped;
    var h := Grouped(cat, inst, g);
    assert TopLevel(h) && Acyclic(EdgePairs(h.Edges()));
    GroupNode(cat, inst, g);
    hide Grouped;
    forall e | e in h.Edges() ensures EdgeTyped(cat, h, e) {
      OutsideEdge(cat, inst, g, e);
    }
    TypedWithin(cat, h);
    forall x | x in h.Nodes() && x.Registered? ensures RegisteredReady(cat, h, x) {
      OutsideRegistered(cat, inst, g, x);
    }
    forall id | id in ComponentIds(h) ensures ComponentReady(h, id) && (id == g.id || (id in ComponentIds(inst) && id !in g.nodes)) {
      GroupedIds(cat, inst, g, id);
      if id == g.id {
        GroupReady(cat, inst, g);
      } else {
        OutsideNode(cat, inst, g, id);
        OutsideComponent(cat, inst, g, id);
      }
    }
  }

  lemma WiredAcyclic(cat: Catalog, inst: Instance)
    requires GraphWired(cat, inst)
    ensures Acyclic(EdgePairs(inst.Edges()))
  {
  }

  lemma InsideChild(cat: Catalog, inst: Instance, g: Group, id: NodeId)
    requires WellWired(cat, inst) && id in ComponentIds(inst) && id in g.nodes
    ensures var c := Inside(cat, inst, g); id in c.children && WellWired(cat, c.children[id])
  {
    hide GraphWired, InPorts, OutPorts, InnerEdges, Chosen, NodeOf;
  }

  lemma OutsideChild(cat: Catalog, inst: Instance, g: Group, id: NodeId)
    requires WellWired(cat, inst) && id in ComponentIds(inst) && id !in g.nodes && id != g.id
    ensures var h := Grouped(cat, inst, g); id in h.children && WellWired(cat, h.children[id])
  {
    hide GraphWired, Inside, OuterEdges, Chosen, NodeOf;
  }

  lemma WiredFrom(cat: Catalog, inst: Instance)
    requires GraphWired(cat, inst) && forall id :: id in ComponentIds(inst) ==> id in inst.children && WellWired(cat, inst.children[id])
    ensures WellWired(cat, inst)
  {
    hide GraphWired;
  }

  lemma GroupingIsWired(cat: Catalog, inst: Instance, g: Group)
    requires WellWired(cat, inst) && TopLevel(inst) && Groupable(inst, g)
    ensures WellWired(cat, Grouped(cat, inst, g)) && TopLevel(Grouped(cat, inst, g))
  {
    var h, c := Grouped(cat, inst, g), Inside(cat, inst, g);
    assert GraphWired(cat, inst);
    hide GraphWired, WellWired;
    GroupNode(cat, inst, g);
    hide Inside, Grouped, NodeOf, NodeIds;
    InsideWired(cat, inst, g);
    OutsideWired(cat, inst, g);
    GroupableId(inst, g);
    hide Groupable;
    forall id | id in ComponentIds(c) ensures id in c.children && WellWired(cat, c.children[id]) {
      InsideChild(cat, inst, g, id);
    }
    WiredFrom(cat, c);
    forall id | id in ComponentIds(h) ensures id in h.children && WellWired(cat, h.children[id]) {
      if id != g.id { OutsideChild(cat, inst, g, id); }
    }
    WiredFrom(cat, h);
  }

  /** Grouping keeps well-wiredness, at every depth, exactly when the component node closes no cycle. */
  lemma GroupingIsWiredIff(cat: Catalog, inst: Instance, g: Group)
    requires WellWired(cat, inst) && TopLevel(inst) && NoFanIn(inst.Edges()) && g.id !in inst.Ids()
    ensures WellWired(cat, Grouped(cat, inst, g)) <==> Groupable(inst, g)
  {
    if Groupable(inst, g) {
      GroupingIsWired(cat, inst, g);
    } else if WellWired(cat, Grouped(cat, inst, g)) {
      WiredAcyclic(cat, Grouped(cat, inst, g));
    }
  }
}
