/** What feeds what is the same before and after grouping: every leaf keeps its type, its parameters and its sources. */
module GroupedFlows {
  import opened Collections
  import opened Documents
  import opened Evaluator
  import opened Flattening
  import opened Grouping
  import opened Planning
  import opened PortWiring
  import opened Typing

  /* ---- places before and after ---- */

  /** Where a node goes. */
  function Into(g: Group, p: Path): Path {
    if p != [] && p[0] in g.nodes then [g.id] + p else p
  }

  /** Where it came from. */
  function OutOf(g: Group, q: Path): Path {
    if q != [] && q[0] == g.id then q[1..] else q
  }

  predicate Paired(g: Group, p: Path, q: Path) {
    Into(g, p) == q && OutOf(g, q) == p
  }

  /** Two places under which every path corresponds. */
  ghost predicate Parallel(g: Group, p: Path, q: Path) {
    forall r: Path :: Paired(g, p + r, q + r)
  }

  lemma ParallelBelow(g: Group, p: Path, q: Path, id: NodeId)
    requires Parallel(g, p, q)
    ensures Paired(g, p + [id], q + [id]) && Parallel(g, p + [id], q + [id])
  {
    hide Paired;
    assert Paired(g, p + [id], q + [id]);
    forall r: Path ensures Paired(g, (p + [id]) + r, (q + [id]) + r) {
      assert (p + [id]) + r == p + ([id] + r) && (q + [id]) + r == q + ([id] + r);
      assert Paired(g, p + ([id] + r), q + ([id] + r));
    }
  }

  lemma PairedInside(g: Group, p: Path)
    requires p != [] && p[0] in g.nodes
    ensures Paired(g, p, [g.id] + p)
  {
    assert ([g.id] + p)[1..] == p;
  }

  lemma ParallelInside(g: Group, id: NodeId)
    requires id in g.nodes
    ensures Paired(g, [id], [g.id, id]) && Parallel(g, [id], [g.id, id])
  {
    forall r: Path ensures Paired(g, [id] + r, [g.id, id] + r) {
      PairedInside(g, [id] + r);
      assert [g.id] + ([id] + r) == [g.id, id] + r;
    }
    PairedInside(g, [id]);
    assert [g.id] + [id] == [g.id, id];
  }

  lemma ParallelOutside(g: Group, id: NodeId)
    requires id !in g.nodes && id != g.id
    ensures Paired(g, [id], [id]) && Parallel(g, [id], [id])
  {
  }

  /* ---- the same node at two parallel places ---- */

  predicate SameSource(g: Group, a: Option<Address>, b: Option<Address>) {
    (a.None? && b.None?) || (a.Some? && b.Some? && Paired(g, a.value.0, b.value.0) && a.value.1 == b.value.1)
  }

  ghost predicate SameWires(g: Group, w: Wires, w': Wires) {
    forall slot: Slot :: SameSource(g, Get(w, slot), Get(w', slot))
  }

  lemma {:induction false} OutputMoves(g: Group, x: Instance, p: Path, q: Path, id: NodeId, port: PortName)
    requires Parallel(g, p, q) && id in x.Ids()
    ensures SameSource(g, FlatOutput(x, p, id, port), FlatOutput(x, q, id, port))
    decreases x
  {
    hide Paired, Parallel, NodeOf, NodeIds;
    ParallelBelow(g, p, q, id);
    if NodeOf(x.Nodes(), id).Component? && id in x.children {
      var child := x.children[id];
      var e := ExposedBy(child.definition.exposedOutputs, port);
      if e.Some? && e.value.node in child.Ids() {
        OutputMoves(g, child, p + [id], q + [id], e.value.node, e.value.port);
      }
    }
  }

  lemma InputMoves(g: Group, x: Instance, p: Path, q: Path, w: Wires, w': Wires, id: NodeId, port: PortName)
    requires Parallel(g, p, q) && SameWires(g, w, w')
    ensures SameSource(g, FlatInput(x, p, w, id, port), FlatInput(x, q, w', id, port))
  {
    hide Paired, Parallel, NodeOf, NodeIds, FlatOutput, SameSource;
    var source := SourceOf(x.Edges(), id, port);
    if source.Some? && source.value.0 in x.Ids() {
      OutputMoves(g, x, p, q, source.value.0, source.value.1);
    } else if source.Some? {
      assert SameSource(g, None, None) by { NoSources(g); }
    } else {
      assert SameSource(g, Get(w, (id, port)), Get(w', (id, port)));
    }
  }

  lemma NoSources(g: Group)
    ensures SameSource(g, None, None)
  {
  }

  lemma {:induction false} PassedMoves(g: Group, x: Instance, x': Instance, p: Path, q: Path, w: Wires, w': Wires, id: NodeId, exposed: seq<ExposedPort>)
    requires forall port :: SameSource(g, FlatInput(x, p, w, id, port), FlatInput(x', q, w', id, port))
    ensures SameWires(g, PassedOn(x, p, w, id, exposed), PassedOn(x', q, w', id, exposed))
  {
    hide FlatInput, Paired;
    if exposed != [] {
      var n := |exposed| - 1;
      var e := exposed[n];
      PassedMoves(g, x, x', p, q, w, w', id, exposed[..n]);
      var before, before' := PassedOn(x, p, w, id, exposed[..n]), PassedOn(x', q, w', id, exposed[..n]);
      assert SameSource(g, FlatInput(x, p, w, id, e.name), FlatInput(x', q, w', id, e.name));
      forall slot: Slot ensures SameSource(g, Get(PassedOn(x, p, w, id, exposed), slot), Get(PassedOn(x', q, w', id, exposed), slot)) {
        assert SameSource(g, Get(before, slot), Get(before', slot));
      }
    }
  }

  /** Same type, same parameters, same sources. */
  ghost predicate Alike(g: Group, leaf: Leaf, moved: Leaf) {
    && moved.typeId == leaf.typeId && moved.version == leaf.version && moved.params == leaf.params
    && forall port :: SameSource(g, Get(leaf.feeds, port), Get(moved.feeds, port))
  }

  ghost predicate BothAlike(g: Group, a: Option<Leaf>, b: Option<Leaf>) {
    (a.None? && b.None?) || (a.Some? && b.Some? && Alike(g, a.value, b.value))
  }

  /** A registered node whose inputs come from corresponding sources is the same leaf. */
  lemma LeafHere(cat: Catalog, g: Group, x: Instance, x': Instance, p: Path, q: Path, w: Wires, w': Wires, id: NodeId, rel: Path)
    requires id in x.Ids() && id in x'.Ids() && NodeOf(x.Nodes(), id) == NodeOf(x'.Nodes(), id) && NodeOf(x.Nodes(), id).Registered?
    requires x.ParamsOf(id) == x'.ParamsOf(id) && rel != [] && rel[0] == id
    requires forall port :: SameSource(g, FlatInput(x, p, w, id, port), FlatInput(x', q, w', id, port))
    ensures BothAlike(g, LeafAt(cat, x, p, w, rel), LeafAt(cat, x', q, w', rel))
  {
    hide FlatInput, Paired, InputNames, NodeOf, NodeIds;
    if |rel| == 1 {
      var leaf, moved := LeafAt(cat, x, p, w, rel).value, LeafAt(cat, x', q, w', rel).value;
      forall port ensures SameSource(g, Get(leaf.feeds, port), Get(moved.feeds, port)) {
        assert SameSource(g, FlatInput(x, p, w, id, port), FlatInput(x', q, w', id, port));
      }
    }
  }

  /** The same instance at two parallel places, fed from corresponding sources, has the same leaves. */
  lemma {:induction false} LeafMoves(cat: Catalog, g: Group, x: Instance, p: Path, q: Path, w: Wires, w': Wires, rel: Path)
    requires Parallel(g, p, q) && SameWires(g, w, w')
    ensures BothAlike(g, LeafAt(cat, x, p, w, rel), LeafAt(cat, x, q, w', rel))
    decreases rel
  {
    hide Paired, Parallel, SameWires, FlatInput, InputNames, SameSource, NodeOf, NodeIds, Alike, PassedOn;
    if rel != [] && rel[0] in x.Ids() {
      var id := rel[0];
      var n := NodeOf(x.Nodes(), id);
      forall port ensures SameSource(g, FlatInput(x, p, w, id, port), FlatInput(x, q, w', id, port)) {
        InputMoves(g, x, p, q, w, w', id, port);
      }
      if n.Registered? {
        LeafHere(cat, g, x, x, p, q, w, w', id, rel);
      } else if id in x.children {
        ParallelBelow(g, p, q, id);
        PassedMoves(g, x, x, p, q, w, w', id, x.children[id].definition.exposedInputs);
        LeafMoves(cat, g, x.children[id], p + [id], q + [id], ChildWires(x, p, w, id), ChildWires(x, q, w', id), rel[1..]);
      }
    }
  }

  /* ---- outputs of the cut graph ---- */

  /** One graph with one source per port, and an unused id for the component node. */
  ghost predicate Cuttable(inst: Instance, g: Group) {
    && UniqueIds(inst.Nodes()) && Within(EdgePairs(inst.Edges()), inst.Ids())
    && NoFanIn(inst.Edges()) && g.id !in inst.Ids()
  }

  lemma {:induction false} ExposedByIs(ports: seq<ExposedPort>, x: ExposedPort)
    requires DistinctNames(ports) && x in ports
    ensures ExposedBy(ports, x.name) == Some(x)
  {
    var n := |ports| - 1;
    if x == ports[n] {
    } else {
      var k :| 0 <= k < |ports| && ports[k] == x;
      assert ports[k].name != ports[n].name;
      assert ports[..n][k] == x;
      ExposedByIs(ports[..n], x);
    }
  }

  lemma InsideOutput(cat: Catalog, inst: Instance, g: Group, id: NodeId, port: PortName)
    requires Cuttable(inst, g) && id in inst.Ids() && id in g.nodes
    ensures id in Inside(cat, inst, g).Ids()
    ensures SameSource(g, FlatOutput(inst, [], id, port), FlatOutput(Inside(cat, inst, g), [g.id], id, port))
  {
    InsideNode(cat, inst, g, id);
    hide Inside, NodeOf, NodeIds, Parallel, Paired;
    ParallelInside(g, id);
    var c := Inside(cat, inst, g);
    assert [] + [id] == [id] && [g.id] + [id] == [g.id, id];
    if NodeOf(inst.Nodes(), id).Component? && id in inst.children {
      ChildOutputMoves(g, inst.children[id], [id], [g.id, id], port);
    }
  }

  /** What a component publishes comes from corresponding sources. */
  lemma ChildOutputMoves(g: Group, child: Instance, p: Path, q: Path, port: PortName)
    requires Parallel(g, p, q)
    ensures var e := ExposedBy(child.definition.exposedOutputs, port);
      e.Some? && e.value.node in child.Ids() ==> SameSource(g, FlatOutput(child, p, e.value.node, e.value.port), FlatOutput(child, q, e.value.node, e.value.port))
  {
    hide Parallel, Paired, FlatOutput, NodeIds, SameSource;
    var e := ExposedBy(child.definition.exposedOutputs, port);
    if e.Some? && e.value.node in child.Ids() {
      OutputMoves(g, child, p, q, e.value.node, e.value.port);
    }
  }

  lemma OutsideOutput(cat: Catalog, inst: Instance, g: Group, id: NodeId, port: PortName)
    requires Cuttable(inst, g) && id in inst.Ids() && id !in g.nodes
    ensures id in Grouped(cat, inst, g).Ids()
    ensures SameSource(g, FlatOutput(inst, [], id, port), FlatOutput(Grouped(cat, inst, g), [], id, port))
  {
    OutsideNode(cat, inst, g, id);
    hide Grouped, NodeOf, NodeIds, Parallel, Paired;
    ParallelOutside(g, id);
    var h := Grouped(cat, inst, g);
    assert [] + [id] == [id];
    if NodeOf(inst.Nodes(), id).Component? && id in inst.children {
      ChildOutputMoves(g, inst.children[id], [id], [id], port);
    }
  }

  lemma InsideExposes(cat: Catalog, inst: Instance, g: Group, i: nat)
    requires i < |inst.Edges()| && CrossesOut(g.nodes, inst.Edges()[i])
    ensures ExposedBy(Inside(cat, inst, g).definition.exposedOutputs, i) == Some(OutPort(cat, inst, inst.Edges()[i], i))
  {
    hide InnerEdges, InPorts, Chosen, OutputTable, ExposedBy, NodeIds;
    var ports, x := OutPorts(cat, inst, g.nodes, |inst.Edges()|), OutPort(cat, inst, inst.Edges()[i], i);
    hide OutPorts;
    assert x in ports;
    ExposedByIs(ports, x);
  }

  /** What a component node delivers is what the exposure names inside it. */
  lemma ExposedOutput(x: Instance, path: Path, id: NodeId, port: PortName, e: ExposedPort)
    requires id in x.Ids() && NodeOf(x.Nodes(), id).Component? && id in x.children
    requires ExposedBy(x.children[id].definition.exposedOutputs, port) == Some(e) && e.node in x.children[id].Ids()
    ensures FlatOutput(x, path, id, port) == FlatOutput(x.children[id], path + [id], e.node, e.port)
  {
    hide NodeOf, NodeIds, ExposedBy;
  }

  /** What the component node delivers under the name of an edge that leaves the set is what that edge delivered. */
  lemma GroupOutput(cat: Catalog, inst: Instance, g: Group, i: nat)
    requires Cuttable(inst, g) && i < |inst.Edges()| && CrossesOut(g.nodes, inst.Edges()[i])
    ensures var h, e := Grouped(cat, inst, g), inst.Edges()[i];
      g.id in h.Ids() && e.src in inst.Ids() && SameSource(g, FlatOutput(inst, [], e.src, e.srcPort), FlatOutput(h, [], g.id, i))
  {
    hide Grouped, Inside, NodeOf, NodeIds, SameSource, FlatOutput, ExposedBy, OutputTable;
    var h, e := Grouped(cat, inst, g), inst.Edges()[i];
    EdgeEnds(inst, e);
    GroupNode(cat, inst, g);
    InsideOutput(cat, inst, g, e.src, e.srcPort);
    InsideExposes(cat, inst, g, i);
    assert [] + [g.id] == [g.id];
    ExposedOutput(h, [], g.id, i, OutPort(cat, inst, e, i));
  }

  /* ---- inputs of the cut graph ---- */

  lemma EdgeInput(inst: Instance, path: Path, w: Wires, e: Edge)
    requires NoFanIn(inst.Edges()) && e in inst.Edges() && e.src in inst.Ids()
    ensures FlatInput(inst, path, w, e.dst, e.dstPort) == FlatOutput(inst, path, e.src, e.srcPort)
  {
    hide FlatOutput, NodeIds;
    SourceIs(inst.Edges(), e);
  }

  lemma HeldOuter(cat: Catalog, inst: Instance, g: Group)
    requires Cuttable(inst, g)
    ensures NoFanIn(Grouped(cat, inst, g).Edges()) && NoFanIn(Inside(cat, inst, g).Edges())
  {
    hide Inside, Grouped;
    forall e | e in inst.Edges() ensures e.dst != g.id {
      EdgeEnds(inst, e);
    }
    OuterNoFanIn(inst.Edges(), g, |inst.Edges()|);
    InnerNoFanIn(inst.Edges(), g.nodes, |inst.Edges()|);
    CutEdges(cat, inst, g);
  }

  lemma CutEdges(cat: Catalog, inst: Instance, g: Group)
    ensures Grouped(cat, inst, g).Edges() == OuterEdges(inst.Edges(), g, |inst.Edges()|)
    ensures Inside(cat, inst, g).Edges() == InnerEdges(inst.Edges(), g.nodes, |inst.Edges()|)
  {
  }

  /** What an edge delivered is what its cut end delivers outside. */
  lemma OutwardInput(cat: Catalog, inst: Instance, g: Group, i: nat)
    requires Cuttable(inst, g) && i < |inst.Edges()| && !IsInner(g.nodes, inst.Edges()[i])
    ensures var h, e := Grouped(cat, inst, g), inst.Edges()[i];
      var f := Outward(g, e, i);
      SameSource(g, FlatInput(inst, [], map[], e.dst, e.dstPort), FlatInput(h, [], map[], f.dst, f.dstPort))
  {
    hide Inside, NodeOf, NodeIds, SameSource, FlatOutput, FlatInput;
    var h, e := Grouped(cat, inst, g), inst.Edges()[i];
    EdgeEnds(inst, e);
    HeldOuter(cat, inst, g);
    CutEdges(cat, inst, g);
    hide Grouped;
    var f := Outward(g, e, i);
    assert f in h.Edges();
    EdgeInput(inst, [], map[], e);
    if e.src in g.nodes {
      GroupOutput(cat, inst, g, i);
    } else {
      OutsideOutput(cat, inst, g, e.src, e.srcPort);
    }
    EdgeInput(h, [], map[], f);
  }

  /** A node left outside is fed from corresponding sources. */
  lemma OutsideInput(cat: Catalog, inst: Instance, g: Group, id: NodeId, port: PortName)
    requires Cuttable(inst, g) && id !in g.nodes && id != g.id
    ensures SameSource(g, FlatInput(inst, [], map[], id, port), FlatInput(Grouped(cat, inst, g), [], map[], id, port))
  {
    hide Inside, NodeOf, NodeIds, FlatOutput;
    var h := Grouped(cat, inst, g);
    CutEdges(cat, inst, g);
    hide Grouped;
    var source := SourceOf(inst.Edges(), id, port);
    if source.Some? {
      var e := Edge(source.value.0, source.value.1, id, port);
      var i :| 0 <= i < |inst.Edges()| && inst.Edges()[i] == e;
      OutwardInput(cat, inst, g, i);
    } else {
      assert SourceOf(h.Edges(), id, port).None?;
    }
  }

  /* ---- what the component is handed ---- */

  ghost predicate DistinctSlots(exposed: seq<ExposedPort>) {
    forall i, j :: 0 <= i < j < |exposed| ==> (exposed[i].node, exposed[i].port) != (exposed[j].node, exposed[j].port)
  }

  lemma {:induction false} NotPassedOn(inst: Instance, path: Path, w: Wires, id: NodeId, exposed: seq<ExposedPort>, slot: Slot)
    requires forall x :: x in exposed ==> (x.node, x.port) != slot
    ensures Get(PassedOn(inst, path, w, id, exposed), slot) == None
  {
    hide FlatInput;
    if exposed != [] {
      NotPassedOn(inst, path, w, id, exposed[..|exposed| - 1], slot);
    }
  }

  /** Exposed ports that map to distinct inside ports pass each its own source on. */
  lemma {:induction false} PassedOnIs(inst: Instance, path: Path, w: Wires, id: NodeId, exposed: seq<ExposedPort>, x: ExposedPort)
    requires DistinctSlots(exposed) && x in exposed
    ensures Get(PassedOn(inst, path, w, id, exposed), (x.node, x.port)) == FlatInput(inst, path, w, id, x.name)
  {
    hide FlatInput;
    var n := |exposed| - 1;
    var front, e := exposed[..n], exposed[n];
    if x == e {
      forall y | y in front ensures (y.node, y.port) != (x.node, x.port) {
        var k :| 0 <= k < n && front[k] == y;
        assert exposed[k] == y;
      }
      NotPassedOn(inst, path, w, id, front, (x.node, x.port));
    } else {
      var k :| 0 <= k < |exposed| && exposed[k] == x;
      assert front[k] == x;
      PassedOnIs(inst, path, w, id, front, x);
    }
  }

  lemma InSlots(cat: Catalog, inst: Instance, g: Group)
    requires NoFanIn(inst.Edges())
    ensures DistinctSlots(InPorts(cat, inst, g.nodes, |inst.Edges()|))
  {
    var n := |inst.Edges()|;
    var ports := InPorts(cat, inst, g.nodes, n);
    hide InPorts, InputTable, NodeIds;
    forall a, b | 0 <= a < b < |ports| ensures (ports[a].node, ports[a].port) != (ports[b].node, ports[b].port) {
      assert ports[a] in ports && ports[b] in ports;
      var i :| 0 <= i < n && CrossesIn(g.nodes, inst.Edges()[i]) && ports[a] == InPort(cat, inst, inst.Edges()[i], i);
      var j :| 0 <= j < n && CrossesIn(g.nodes, inst.Edges()[j]) && ports[b] == InPort(cat, inst, inst.Edges()[j], j);
      assert i != j;
      assert Target(inst.Edges()[i]) != Target(inst.Edges()[j]);
    }
  }

  ghost function GroupWires(cat: Catalog, inst: Instance, g: Group): Wires {
    PassedOn(Grouped(cat, inst, g), [], map[], g.id, InPorts(cat, inst, g.nodes, |inst.Edges()|))
  }

  /** Inside, an edge that entered the set is replaced by the wire of its exposed port. */
  lemma EnteringWire(cat: Catalog, inst: Instance, g: Group, i: nat)
    requires Cuttable(inst, g) && i < |inst.Edges()| && CrossesIn(g.nodes, inst.Edges()[i])
    ensures var e := inst.Edges()[i];
      SameSource(g, FlatInput(inst, [], map[], e.dst, e.dstPort), Get(GroupWires(cat, inst, g), (e.dst, e.dstPort)))
  {
    hide FlatInput, Grouped, PassedOn, InPorts, SameSource, InputTable, NodeIds;
    var n, e := |inst.Edges()|, inst.Edges()[i];
    InSlots(cat, inst, g);
    var x := InPort(cat, inst, e, i);
    assert x in InPorts(cat, inst, g.nodes, n);
    PassedOnIs(Grouped(cat, inst, g), [], map[], g.id, InPorts(cat, inst, g.nodes, n), x);
    OutwardInput(cat, inst, g, i);
  }

  lemma NoWire(cat: Catalog, inst: Instance, g: Group, slot: Slot)
    requires NoFanIn(inst.Edges()) && forall e :: e in inst.Edges() ==> (e.dst, e.dstPort) != slot
    ensures Get(GroupWires(cat, inst, g), slot) == None
  {
    hide FlatInput, Grouped, PassedOn, InPorts, InputTable, NodeIds;
    var n := |inst.Edges()|;
    var ports := InPorts(cat, inst, g.nodes, n);
    forall x | x in ports ensures (x.node, x.port) != slot {
      var i :| 0 <= i < n && CrossesIn(g.nodes, inst.Edges()[i]) && x == InPort(cat, inst, inst.Edges()[i], i);
      assert inst.Edges()[i] in inst.Edges();
    }
    NotPassedOn(Grouped(cat, inst, g), [], map[], g.id, ports, slot);
  }

  /** A node moved inside is fed from corresponding sources. */
  lemma InsideInput(cat: Catalog, inst: Instance, g: Group, id: NodeId, port: PortName)
    requires Cuttable(inst, g) && id in g.nodes
    ensures SameSource(g, FlatInput(inst, [], map[], id, port), FlatInput(Inside(cat, inst, g), [g.id], GroupWires(cat, inst, g), id, port))
  {
    hide NodeOf, NodeIds, FlatOutput, Paired, GroupWires;
    var c, w := Inside(cat, inst, g), GroupWires(cat, inst, g);
    CutEdges(cat, inst, g);
    HeldOuter(cat, inst, g);
    hide Grouped, Inside;
    var source := SourceOf(inst.Edges(), id, port);
    if source.Some? {
      var e := Edge(source.value.0, source.value.1, id, port);
      EdgeEnds(inst, e);
      var i :| 0 <= i < |inst.Edges()| && inst.Edges()[i] == e;
      if e.src in g.nodes {
        assert e in c.Edges();
        InsideOutput(cat, inst, g, e.src, e.srcPort);
        EdgeInput(inst, [], map[], e);
        EdgeInput(c, [g.id], w, e);
      } else {
        NoInnerEdge(inst, g, e);
        EnteringWire(cat, inst, g, i);
      }
    } else {
      assert forall e :: e in c.Edges() ==> e in inst.Edges();
      assert SourceOf(c.Edges(), id, port).None?;
      NoWire(cat, inst, g, (id, port));
    }
  }

  lemma NoInnerEdge(inst: Instance, g: Group, e: Edge)
    requires NoFanIn(inst.Edges()) && e in inst.Edges() && e.src !in g.nodes
    ensures SourceOf(InnerEdges(inst.Edges(), g.nodes, |inst.Edges()|), e.dst, e.dstPort).None?
  {
    var source := SourceOf(InnerEdges(inst.Edges(), g.nodes, |inst.Edges()|), e.dst, e.dstPort);
    if source.Some? {
      SourceIs(inst.Edges(), e);
      var f := Edge(source.value.0, source.value.1, e.dst, e.dstPort);
      assert f in inst.Edges();
      SourceIs(inst.Edges(), f);
    }
  }

  /* ---- leaves ---- */

  lemma ParamsStay(cat: Catalog, inst: Instance, g: Group, id: NodeId)
    ensures id !in g.nodes && id != g.id ==> Grouped(cat, inst, g).ParamsOf(id) == inst.ParamsOf(id)
    ensures id in g.nodes ==> Inside(cat, inst, g).ParamsOf(id) == inst.ParamsOf(id)
  {
    hide Chosen, OuterEdges, InnerEdges, InPorts, OutPorts;
  }

  lemma OutsideLeaf(cat: Catalog, inst: Instance, g: Group, rel: Path)
    requires Cuttable(inst, g) && rel != [] && rel[0] in inst.Ids() && rel[0] !in g.nodes
    ensures BothAlike(g, LeafAt(cat, inst, [], map[], rel), LeafAt(cat, Grouped(cat, inst, g), [], map[], rel))
  {
    hide Grouped, NodeOf, NodeIds, FlatInput, Paired, Parallel, BothAlike, SameSource, PassedOn, InputNames;
    var h, id := Grouped(cat, inst, g), rel[0];
    OutsideNode(cat, inst, g, id);
    ParamsStay(cat, inst, g, id);
    forall port ensures SameSource(g, FlatInput(inst, [], map[], id, port), FlatInput(h, [], map[], id, port)) {
      OutsideInput(cat, inst, g, id, port);
    }
    if NodeOf(inst.Nodes(), id).Registered? {
      LeafHere(cat, g, inst, h, [], [], map[], map[], id, rel);
    } else if id in inst.children {
      ParallelOutside(g, id);
      assert [] + [id] == [id];
      PassedMoves(g, inst, h, [], [], map[], map[], id, inst.children[id].definition.exposedInputs);
      LeafMoves(cat, g, inst.children[id], [id], [id], ChildWires(inst, [], map[], id), ChildWires(h, [], map[], id), rel[1..]);
    } else {
      NeitherLeaf(g);
    }
  }

  lemma NeitherLeaf(g: Group)
    ensures BothAlike(g, None, None)
  {
  }

  lemma InsideLeaf(cat: Catalog, inst: Instance, g: Group, rel: Path)
    requires Cuttable(inst, g) && rel != [] && rel[0] in inst.Ids() && rel[0] in g.nodes
    ensures BothAlike(g, LeafAt(cat, inst, [], map[], rel), LeafAt(cat, Inside(cat, inst, g), [g.id], GroupWires(cat, inst, g), rel))
  {
    hide Inside, GroupWires, NodeOf, NodeIds, FlatInput, Paired, Parallel, BothAlike, SameSource, PassedOn, InputNames;
    var c, id, w := Inside(cat, inst, g), rel[0], GroupWires(cat, inst, g);
    InsideNode(cat, inst, g, id);
    ParamsStay(cat, inst, g, id);
    forall port ensures SameSource(g, FlatInput(inst, [], map[], id, port), FlatInput(c, [g.id], w, id, port)) {
      InsideInput(cat, inst, g, id, port);
    }
    if NodeOf(inst.Nodes(), id).Registered? {
      LeafHere(cat, g, inst, c, [], [g.id], map[], w, id, rel);
    } else if id in inst.children {
      ParallelInside(g, id);
      assert [] + [id] == [id] && [g.id] + [id] == [g.id, id];
      PassedMoves(g, inst, c, [], [g.id], map[], w, id, inst.children[id].definition.exposedInputs);
      LeafMoves(cat, g, inst.children[id], [id], [g.id, id], ChildWires(inst, [], map[], id), ChildWires(c, [g.id], w, id), rel[1..]);
    } else {
      NeitherLeaf(g);
    }
  }

  /** Below the component node are the leaves inside it. */
  lemma LeafBelowGroup(cat: Catalog, inst: Instance, g: Group, rel: Path)
    requires Cuttable(inst, g)
    ensures LeafAt(cat, Grouped(cat, inst, g), [], map[], [g.id] + rel) == LeafAt(cat, Inside(cat, inst, g), [g.id], GroupWires(cat, inst, g), rel)
  {
    GroupNode(cat, inst, g);
    assert ([g.id] + rel)[1..] == rel && [] + [g.id] == [g.id];
    assert ChildWires(Grouped(cat, inst, g), [], map[], g.id) == GroupWires(cat, inst, g) by { InsidePorts(cat, inst, g); }
    hide Grouped, Inside, NodeOf, NodeIds, PassedOn, GroupWires, FlatInput, InputNames;
  }

  lemma InsidePorts(cat: Catalog, inst: Instance, g: Group)
    ensures Inside(cat, inst, g).definition.exposedInputs == InPorts(cat, inst, g.nodes, |inst.Edges()|)
  {
  }

  /** Every leaf of the document has its counterpart. */
  lemma GroupedLeaf(cat: Catalog, inst: Instance, g: Group, p: Path)
    requires Cuttable(inst, g) && LeafAt(cat, inst, [], map[], p).Some?
    ensures Paired(g, p, Into(g, p))
    ensures BothAlike(g, LeafAt(cat, inst, [], map[], p), LeafAt(cat, Grouped(cat, inst, g), [], map[], Into(g, p)))
  {
    hide Grouped, Inside, NodeOf, FlatInput, BothAlike, SameSource, PassedOn, GroupWires, InputNames, NodeIds;
    if p[0] in g.nodes {
      InsideLeaf(cat, inst, g, p);
      LeafBelowGroup(cat, inst, g, p);
    } else {
      OutsideLeaf(cat, inst, g, p);
    }
  }

  /** And there are no others. */
  lemma UngroupedLeaf(cat: Catalog, inst: Instance, g: Group, q: Path)
    requires Cuttable(inst, g) && LeafAt(cat, Grouped(cat, inst, g), [], map[], q).Some?
    ensures Paired(g, OutOf(g, q), q)
    ensures BothAlike(g, LeafAt(cat, inst, [], map[], OutOf(g, q)), LeafAt(cat, Grouped(cat, inst, g), [], map[], q))
  {
    hide Grouped, Inside, NodeOf, FlatInput, BothAlike, SameSource, PassedOn, GroupWires, InputNames, NodeIds;
    GroupedIds(cat, inst, g, q[0]);
    if q[0] == g.id {
      var p := q[1..];
      assert q == [g.id] + p;
      LeafBelowGroup(cat, inst, g, p);
      GroupedIds(cat, inst, g, p[0]);
      InsideLeaf(cat, inst, g, p);
    } else {
      OutsideLeaf(cat, inst, g, q);
    }
  }
}
