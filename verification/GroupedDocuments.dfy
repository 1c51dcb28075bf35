/** Grouping at the level of documents: an accepted document with some nodes moved into a new component definition is
    accepted again, and resolves to the grouped instance. */
module GroupedDocuments {
  import opened Closure
  import opened Collections
  import opened Compositionality
  import opened Convexity
  import opened Cycles
  import opened DefinitionChecks
  import opened Diagnostics
  import opened Documents
  import opened Evaluator
  import opened FlatDocuments
  import opened Flattening
  import opened GroupedClosures
  import opened GroupedFlows
  import opened Grouping
  import opened Instantiation
  import opened Planning
  import opened PortWiring
  import opened Preflight
  import opened Resolution
  import opened TreeWiring
  import opened Typing
  import opened Validation
  import opened WiredChecks

  /* ---- what an accepted document resolves to ---- */

  /** The facts that a clean pre-flight leaves: the closure it fetched, and the instance it built over it. */
  ghost predicate Accepted(cat: Catalog, doc: Document, fetched: Definitions, root: Instance) {
    && SoundClosure(fetched) && AllClean(cat, fetched) && KeysOf(doc.refs) <= fetched.Keys
    && (forall k :: k in fetched ==> DefinitionFaults(fetched[k]) == {})
    && Resolvable(doc) && doc.schemaSupported && DuplicateRefFaults(doc.refs) == {}
    && Instances(cat, doc, fetched).faults == {}
    && root == RootOf(doc, Instances(cat, doc, fetched).instances)
    && WellWired(cat, root) && NoFanIn(doc.graph.edges)
    && ParamFaults(cat, doc.graph.nodes) == {} && |TerminalNodes(doc.graph.nodes)| == 1
  }

  lemma GatedFacts(cat: Catalog, fetched: Definitions)
    requires GateFaults(cat, fetched, {}) == {}
    ensures forall k :: k in fetched ==> DefinitionFaults(fetched[k]) == {}
  {
    hide SetFaults, AllSemanticFaults, DefinitionFaults;
    InvalidNone(Listed(fetched));
    ListedMembers(fetched);
  }

  lemma GatedComplete(cat: Catalog, fetched: Definitions, missing: set<ComponentKey>)
    requires GateFaults(cat, fetched, missing) == {}
    ensures missing == {}
  {
    hide SetFaults, AllSemanticFaults, InvalidFaults;
    AbsentNone(missing);
  }

  lemma ResolvedFacts(cat: Catalog, doc: Document, store: Definitions)
    requires KeyedByIdentity(store) && Resolvable(doc) && Resolve(cat, doc, store).Ok()
    ensures var fetched := ClosureOf(store, KeysOf(doc.refs));
      && AbsentOf(store, KeysOf(doc.refs)) == {}
      && SoundClosure(fetched) && AllClean(cat, fetched) && KeysOf(doc.refs) <= fetched.Keys
      && (forall k :: k in fetched ==> DefinitionFaults(fetched[k]) == {})
      && Instances(cat, doc, fetched) == Resolve(cat, doc, store)
  {
    hide GateFaults, ClosureOf, AbsentOf, Reachable, KeysOf, Instances, Resolvable, SoundClosure, AllClean, DefinitionFaults;
    var fetched, missing := ClosureOf(store, KeysOf(doc.refs)), AbsentOf(store, KeysOf(doc.refs));
    GatedComplete(cat, fetched, missing);
    GatesAreSound(cat, store, KeysOf(doc.refs), fetched, missing);
    GatedFacts(cat, fetched);
  }

  lemma DocumentFacts(doc: Document)
    requires DocumentFaults(doc) == {}
    ensures doc.schemaSupported && DuplicateRefFaults(doc.refs) == {} && Resolvable(doc)
  {
    CleanDocument(doc);
    hide DuplicateRefFaults, GraphFaults, Resolvable;
  }

  lemma FanInFree(cat: Catalog, g: Graph, instances: map<NodeId, Instance>)
    requires ToplevelFaults(cat, g, instances) == {}
    ensures NoFanIn(g.edges)
  {
    hide TopEdgeFaults, TopUnfedFaults, DuplicateTargets, Tables;
    assert forall s :: s in DuplicateTargets(g.edges) ==> Diagnostic(AmbiguousInput, [s.0], s.1) in ToplevelFaults(cat, g, instances);
    assert DuplicateTargets(g.edges) == {};
    NoFanInSilent(g.edges);
  }

  /** Pre-flight establishes them. */
  lemma CleanIsAccepted(cat: Catalog, doc: Document, store: Definitions)
    requires KeyedByIdentity(store) && PreflightOf(cat, doc, store).Ok()
    ensures AbsentOf(store, KeysOf(doc.refs)) == {}
    ensures Accepted(cat, doc, ClosureOf(store, KeysOf(doc.refs)), RootOf(doc, PreflightOf(cat, doc, store).instances))
  {
    CleanIsWellWired(cat, doc, store);
    hide SemanticsFaults, ToplevelFaults, DocumentFaults, Resolve, KeyedByIdentity, WellWired, ParamFaults, TerminalNodes, KeysOf, ClosureOf, AbsentOf;
    hide NoFanIn, SoundClosure, AllClean, DefinitionFaults, DuplicateRefFaults, Instances, Resolvable, RootOf;
    assert DocumentFaults(doc) == {} && SemanticsFaults(cat, doc.graph) == {};
    DocumentFacts(doc);
    CleanDocument(doc);
    ResolvedFacts(cat, doc, store);
    SemanticsNone(cat, doc.graph);
    assert ToplevelFaults(cat, doc.graph, PreflightOf(cat, doc, store).instances) == {};
    FanInFree(cat, doc.graph, PreflightOf(cat, doc, store).instances);
  }

  /* ---- the new definition ---- */

  /** A document whose nodes can be grouped so: unused names, and a component node that closes no cycle. */
  ghost predicate MayGroup(cat: Catalog, doc: Document, fetched: Definitions, root: Instance, g: Group) {
    && Accepted(cat, doc, fetched, root) && Groupable(root, g)
    && g.ref !in RefIds(doc.refs) && g.key !in fetched
    && forall n :: n in TerminalNodes(doc.graph.nodes) ==> n.id !in g.nodes
  }

  lemma RootIs(cat: Catalog, doc: Document, fetched: Definitions, root: Instance)
    requires Accepted(cat, doc, fetched, root)
    ensures root.definition == Definition(0, true, doc.refs, doc.graph, [], [], [])
    ensures root.params == AuthoredParams(doc.graph.nodes) && root.children == Instances(cat, doc, fetched).instances
    ensures TopLevel(root) && GraphWired(cat, root) && WellWired(cat, root) && NoFanIn(root.Edges()) && Resolvable(doc)
  {
    hide SoundClosure, AllClean, DefinitionFaults, GraphWired, Instances, Resolvable, TerminalNodes, ParamFaults, KeysOf, DuplicateRefFaults, NoFanIn;
  }

  lemma WiredGraphOk(cat: Catalog, x: Instance, declared: set<RefId>)
    requires GraphWired(cat, x) && forall n :: n in x.Nodes() && n.Component? ==> n.ref in declared
    ensures GraphFaults(x.definition.graph, declared) == {} && GraphOk(x.definition.graph, declared)
  {
    hide GraphFaults;
    GraphFaultsNone(x.definition.graph, declared);
  }

  lemma InsideStructure(cat: Catalog, doc: Document, fetched: Definitions, root: Instance, g: Group)
    requires MayGroup(cat, doc, fetched, root, g)
    ensures var d := Inside(cat, root, g).definition;
      && d.key == g.key && d.refs == doc.refs && GraphOk(d.graph, RefIds(d.refs)) && DefinitionFaults(d) == {}
      && Addable(fetched, d) && GraphWired(cat, Inside(cat, root, g))
  {
    hide GraphWired, Groupable, GraphFaults, GraphOk, DuplicateRefFaults, InnerEdges, InPorts, OutPorts, Chosen, KeysOf, SoundClosure, AllClean, ParamFaults, WellWired;
    var c := Inside(cat, root, g);
    RootIs(cat, doc, fetched, root);
    InsideWired(cat, root, g);
    forall n | n in c.Nodes() && n.Component? ensures n.ref in RefIds(doc.refs) {
      InsideHolds(cat, root, g, n);
    }
    WiredGraphOk(cat, c, RefIds(doc.refs));
    assert g.key !in KeysOf(doc.refs);
    assert SelfRefFaults(c.definition) == {};
  }

  /** The instance of a component node, and the definition its reference leads to. */
  lemma ChildIs(cat: Catalog, doc: Document, fetched: Definitions, root: Instance, id: NodeId)
    requires Accepted(cat, doc, fetched, root) && id in ComponentNodes(doc.graph.nodes)
    ensures var key := RootKey(doc, id);
      key in fetched && id in root.children && root.children[id] == Instantiate(fetched, key, NodeOf(doc.graph.nodes, id).params)
      && root.children[id].definition == fetched[key]
      && NestedKey(doc.refs, NodeOf(doc.graph.nodes, id)) == Some(key)
      && InstanceFaults(cat, fetched, key, NodeOf(doc.graph.nodes, id).params, [id]) == {}
  {
    hide SoundClosure, AllClean, DefinitionFaults, WellWired, Resolvable, TerminalNodes, ParamFaults, KeysOf, DuplicateRefFaults, NoFanIn, InstanceFaults;
    var found := InstanceFaults(cat, fetched, RootKey(doc, id), NodeOf(doc.graph.nodes, id).params, [id]);
    var all := Instances(cat, doc, fetched).faults;
    assert forall f :: f in found ==> f in all;
  }

  lemma InsideTables(cat: Catalog, doc: Document, fetched: Definitions, root: Instance, g: Group)
    requires MayGroup(cat, doc, fetched, root, g)
    ensures var c := Inside(cat, root, g);
      Describes(cat, c, TablesIn(cat, fetched[g.key := c.definition], c.definition))
  {
    hide SoundClosure, AllClean, WellWired, TerminalNodes, ParamFaults, KeysOf, DuplicateRefFaults, NoFanIn, Groupable, Inside, Describes;
    hide DefinitionFaults, Instances, GraphWired, GraphOk, NodeOf, NodeIds, Tables, Addable, Accepted, Resolvable, InstanceFaults, Instantiate;
    var c := Inside(cat, root, g);
    var d := c.definition;
    var fetched' := fetched[g.key := d];
    InsideStructure(cat, doc, fetched, root, g);
    RootIs(cat, doc, fetched, root);
    InsideResolved(cat, c);
    var defs := NestedDefinitions(d.refs, fetched', d.graph.nodes);
    forall id | id in ComponentIds(c) ensures id in c.children && id in defs && defs[id] == c.children[id].definition {
      InsideChildIs(cat, doc, fetched, root, g, id);
      var key := RootKey(doc, id);
      assert Get(defs, id) == NestedOf(d.refs, fetched', NodeOf(d.graph.nodes, id));
      assert Get(fetched', key) == Some(fetched[key]);
    }
    AllTablesMatch(cat, c, defs);
  }

  lemma InsideResolved(cat: Catalog, c: Instance)
    requires GraphWired(cat, c)
    ensures forall n :: n in c.Nodes() && n.Registered? ==> cat.Resolve(n.typeId, n.version).Resolved?
  {
    forall n | n in c.Nodes() && n.Registered? ensures cat.Resolve(n.typeId, n.version).Resolved? {
      assert RegisteredReady(cat, c, n);
    }
  }

  lemma InsideChildIs(cat: Catalog, doc: Document, fetched: Definitions, root: Instance, g: Group, id: NodeId)
    requires MayGroup(cat, doc, fetched, root, g) && id in ComponentIds(Inside(cat, root, g))
    ensures id in ComponentNodes(doc.graph.nodes) && id in g.nodes && RootKey(doc, id) in fetched
    ensures var c := Inside(cat, root, g);
      id in c.children && c.children[id] == root.children[id] && NodeOf(c.Nodes(), id) == NodeOf(doc.graph.nodes, id)
      && c.children[id].definition == fetched[RootKey(doc, id)] && NestedKey(doc.refs, NodeOf(doc.graph.nodes, id)) == Some(RootKey(doc, id))
  {
    hide SoundClosure, AllClean, WellWired, TerminalNodes, ParamFaults, KeysOf, DuplicateRefFaults, NoFanIn, Inside, DefinitionFaults, Instances, NodeOf, GraphWired, Instantiate, InstanceFaults;
    RootIs(cat, doc, fetched, root);
    GroupableId(root, g);
    GroupedIds(cat, root, g, id);
    InsideNode(cat, root, g, id);
    ChildIs(cat, doc, fetched, root, id);
  }

  lemma InsideSlots(cat: Catalog, root: Instance, g: Group)
    requires NoFanIn(root.Edges())
    ensures var c := Inside(cat, root, g);
      Slots(c.definition.exposedInputs) !! Targets(c.Edges())
  {
    var c, n := Inside(cat, root, g), |root.Edges()|;
    CutEdges(cat, root, g);
    InsidePorts(cat, root, g);
    hide Inside, InPorts, InnerEdges, InputTable, NodeIds;
    forall s | s in Slots(c.definition.exposedInputs) ensures s !in Targets(c.Edges()) {
      var ports := c.definition.exposedInputs;
      var k :| 0 <= k < |ports| && SlotOf(ports[k]) == s;
      assert ports[k] in InPorts(cat, root, g.nodes, n);
      var i :| 0 <= i < n && CrossesIn(g.nodes, root.Edges()[i]) && ports[k] == InPort(cat, root, root.Edges()[i], i);
      if s in Targets(c.Edges()) {
        var j :| 0 <= j < |c.Edges()| && Target(c.Edges()[j]) == s;
        assert c.Edges()[j] in InnerEdges(root.Edges(), g.nodes, n);
        SameTargetSameEdge(root.Edges(), root.Edges()[i], c.Edges()[j]);
      }
    }
  }

  lemma SameTargetSameEdge(edges: seq<Edge>, e: Edge, f: Edge)
    requires NoFanIn(edges) && e in edges && f in edges && Target(e) == Target(f)
    ensures e == f
  {
    SourceIs(edges, e);
    SourceIs(edges, f);
  }

  /** The new definition passes every check. */
  lemma InsideIsClean(cat: Catalog, doc: Document, fetched: Definitions, root: Instance, g: Group)
    requires MayGroup(cat, doc, fetched, root, g)
    ensures var d := Inside(cat, root, g).definition; SemanticFaults(cat, fetched[g.key := d], d) == {}
  {
    var c := Inside(cat, root, g);
    assert DistinctNames(c.definition.exposedInputs) && DistinctNames(c.definition.exposedOutputs) && c.definition.exposedParams == [];
    hide SoundClosure, AllClean, WellWired, TerminalNodes, ParamFaults, KeysOf, DuplicateRefFaults, NoFanIn, Groupable, Inside, Describes;
    hide DefinitionFaults, Instances, GraphWired, GraphOk, NodeOf, NodeIds, DistinctNames, DistinctSlots, SemanticFaults, Addable;
    RootIs(cat, doc, fetched, root);
    InsideStructure(cat, doc, fetched, root, g);
    InsideTables(cat, doc, fetched, root, g);
    assert Cuttable(root, g) by { CuttableRoot(cat, root, g); }
    HeldOuter(cat, root, g);
    InSlots(cat, root, g);
    InsidePorts(cat, root, g);
    InsideSlots(cat, root, g);
    WiredDefinitionIsClean(cat, fetched[g.key := c.definition], c);
  }

  lemma CuttableRoot(cat: Catalog, root: Instance, g: Group)
    requires GraphWired(cat, root) && Groupable(root, g)
    ensures Cuttable(root, g)
  {
  }

  /** The enlarged closure passes the gates. */
  lemma GroupedGates(cat: Catalog, doc: Document, fetched: Definitions, root: Instance, g: Group)
    requires MayGroup(cat, doc, fetched, root, g)
    ensures var fetched' := fetched[g.key := Inside(cat, root, g).definition];
      SoundClosure(fetched') && AllClean(cat, fetched') && GateFaults(cat, fetched', {}) == {}
  {
    hide WellWired, TerminalNodes, ParamFaults, KeysOf, DuplicateRefFaults, NoFanIn, Groupable, Inside, SemanticFaults, GateFaults, Addable;
    hide DefinitionFaults, Instances, GraphWired, GraphOk, NodeOf, NodeIds, SoundClosure;
    var d := Inside(cat, root, g).definition;
    InsideStructure(cat, doc, fetched, root, g);
    InsideIsClean(cat, doc, fetched, root, g);
    SoundGains(fetched, d);
    OthersStayClean(cat, fetched, d);
    GatesOpen(cat, fetched[g.key := d]);
  }

  /* ---- references ---- */

  lemma {:induction false} RefKeyAppended(refs: seq<ComponentRef>, last: ComponentRef, ref: RefId)
    ensures RefKey(refs + [last], ref) == if RefKey(refs, ref).Some? then RefKey(refs, ref) else if last.id == ref then Some(last.key) else None
  {
    if refs == [] {
      assert refs + [last] == [last];
    } else {
      assert (refs + [last])[1..] == refs[1..] + [last];
      RefKeyAppended(refs[1..], last, ref);
    }
  }

  lemma RefsAppended(refs: seq<ComponentRef>, last: ComponentRef)
    ensures KeysOf(refs + [last]) == KeysOf(refs) + {last.key} && RefIds(refs + [last]) == RefIds(refs) + {last.id}
    ensures DuplicateRefFaults(refs) == {} && last.id !in RefIds(refs) ==> DuplicateRefFaults(refs + [last]) == {}
  {
    var more := refs + [last];
    assert more[|refs|] == last && forall i :: 0 <= i < |refs| ==> more[i] == refs[i];
    forall r ensures r in more <==> r in refs || r == last {
    }
    if DuplicateRefFaults(refs) == {} && last.id !in RefIds(refs) {
      var rs := seq(|refs|, i requires 0 <= i < |refs| => DuplicateRefFault(refs, i));
      UnionEmpty(rs);
      forall i | 0 <= i < |more| ensures DuplicateRefFault(more, i) == {} {
        if i < |refs| {
          assert rs[i] == {};
        } else {
          assert forall j :: 0 <= j < |refs| ==> refs[j] in refs;
        }
      }
      UnionEmpty(seq(|more|, i requires 0 <= i < |more| => DuplicateRefFault(more, i)));
    }
  }

  /* ---- the document ---- */

  /** The document with the nodes grouped. */
  function GroupedDocument(cat: Catalog, doc: Document, root: Instance, g: Group): Document {
    doc.(refs := doc.refs + [ComponentRef(g.ref, g.key)], graph := Grouped(cat, root, g).definition.graph)
  }

  lemma DocumentIs(cat: Catalog, doc: Document, fetched: Definitions, root: Instance, g: Group)
    requires MayGroup(cat, doc, fetched, root, g)
    ensures var doc', h := GroupedDocument(cat, doc, root, g), Grouped(cat, root, g);
      && h.definition == Definition(0, true, doc'.refs, doc'.graph, [], [], [])
      && GraphWired(cat, h) && TopLevel(h) && NoFanIn(h.Edges())
  {
    hide WellWired, TerminalNodes, ParamFaults, KeysOf, DuplicateRefFaults, NoFanIn, Groupable, Inside, GraphWired, Accepted, OuterEdges, Chosen;
    RootIs(cat, doc, fetched, root);
    OutsideWired(cat, root, g);
    CuttableRoot(cat, root, g);
    HeldOuter(cat, root, g);
  }

  lemma NodesDeclared(cat: Catalog, doc: Document, fetched: Definitions, root: Instance, g: Group)
    requires MayGroup(cat, doc, fetched, root, g)
    ensures DocumentFaults(GroupedDocument(cat, doc, root, g)) == {} && Resolvable(GroupedDocument(cat, doc, root, g))
  {
    hide WellWired, TerminalNodes, ParamFaults, KeysOf, DuplicateRefFaults, NoFanIn, Groupable, GraphWired, Grouped, GraphFaults, GraphOk, SoundClosure, AllClean, Instances, RefIds;
    var doc', h := GroupedDocument(cat, doc, root, g), Grouped(cat, root, g);
    RootIs(cat, doc, fetched, root);
    DocumentIs(cat, doc, fetched, root, g);
    RefsAppended(doc.refs, ComponentRef(g.ref, g.key));
    forall n | n in h.Nodes() && n.Component? ensures n.ref in RefIds(doc'.refs) {
      OutsideHolds(cat, root, g, n);
    }
    WiredGraphOk(cat, h, RefIds(doc'.refs));
    GraphOkResolves(doc');
  }

  /** Its component nodes: the new one, and the old ones left outside, which point where they pointed. */
  lemma RootKeys(cat: Catalog, doc: Document, fetched: Definitions, root: Instance, g: Group, id: NodeId)
    requires MayGroup(cat, doc, fetched, root, g) && Resolvable(GroupedDocument(cat, doc, root, g))
    ensures var nodes' := GroupedDocument(cat, doc, root, g).graph.nodes;
      id in ComponentNodes(nodes') <==> id == g.id || (id in ComponentNodes(doc.graph.nodes) && id !in g.nodes)
    ensures var doc' := GroupedDocument(cat, doc, root, g);
      id in ComponentNodes(doc'.graph.nodes) ==>
        RootKey(doc', id) == (if id == g.id then g.key else RootKey(doc, id))
        && NodeOf(doc'.graph.nodes, id).params == (if id == g.id then map[] else NodeOf(doc.graph.nodes, id).params)
  {
    hide WellWired, TerminalNodes, ParamFaults, KeysOf, DuplicateRefFaults, NoFanIn, GraphWired, Grouped, SoundClosure, AllClean, Instances, NodeOf, DefinitionFaults, NodeIds;
    var doc', h := GroupedDocument(cat, doc, root, g), Grouped(cat, root, g);
    RootIs(cat, doc, fetched, root);
    GroupableId(root, g);
    hide Groupable;
    GroupedIds(cat, root, g, id);
    GroupNode(cat, root, g);
    NoRef(doc.refs, g.ref);
    if id in h.Ids() && id != g.id {
      OutsideNode(cat, root, g, id);
    }
    if id in ComponentNodes(doc'.graph.nodes) {
      RefKeyAppended(doc.refs, ComponentRef(g.ref, g.key), NodeOf(h.Nodes(), id).ref);
    }
  }

  lemma NoRef(refs: seq<ComponentRef>, ref: RefId)
    requires ref !in RefIds(refs)
    ensures RefKey(refs, ref).None?
  {
    assert forall k :: 0 <= k < |refs| ==> refs[k] in refs;
  }

  /* ---- its instances ---- */

  lemma NoneProvided(d: Definition, path: Path)
    ensures EffectiveParams(d, map[]) == AuthoredParams(d.graph.nodes) && ProvidedFaults(d, map[], path) == {}
  {
    var none: Params := map[];
    assert Sorted(none.Keys) == [];
    UnionEmpty(seq(0, i requires 0 <= i < 0 => ProvidedFault(d, path, 0, 0)));
  }

  lemma AuthoredInside(cat: Catalog, doc: Document, fetched: Definitions, root: Instance, g: Group)
    requires MayGroup(cat, doc, fetched, root, g)
    ensures AuthoredParams(Inside(cat, root, g).Nodes()) == Inside(cat, root, g).params
    ensures forall id :: id in Inside(cat, root, g).Ids() ==>
      id in NodeIds(doc.graph.nodes) && AuthoredParams(Inside(cat, root, g).Nodes())[id] == NodeOf(doc.graph.nodes, id).params
  {
    hide WellWired, TerminalNodes, ParamFaults, KeysOf, DuplicateRefFaults, NoFanIn, GraphWired, SoundClosure, AllClean, Instances, NodeOf, DefinitionFaults, NodeIds, Groupable;
    RootIs(cat, doc, fetched, root);
    var c := Inside(cat, root, g);
    forall id ensures Get(AuthoredParams(c.Nodes()), id) == Get(c.params, id)
      ensures id in c.Ids() ==> id in NodeIds(doc.graph.nodes) && NodeOf(c.Nodes(), id) == NodeOf(doc.graph.nodes, id)
    {
      GroupableId(root, g);
      GroupedIds(cat, root, g, id);
      if id in c.Ids() {
        InsideNode(cat, root, g, id);
      }
    }
    SameMaps(AuthoredParams(c.Nodes()), c.params);
  }

  lemma AuthoredOutside(cat: Catalog, doc: Document, fetched: Definitions, root: Instance, g: Group)
    requires MayGroup(cat, doc, fetched, root, g)
    ensures AuthoredParams(Grouped(cat, root, g).Nodes()) == Grouped(cat, root, g).params
  {
    hide MayGroup, Accepted, GraphWired, NoFanIn, NodeOf, NodeIds, Grouped, WellWired, Instances, Resolvable, AuthoredParams;
    MayGroupAccepted(cat, doc, fetched, root, g);
    RootIs(cat, doc, fetched, root);
    var h := Grouped(cat, root, g);
    GroupableId(root, g);
    UniqueRoot(cat, root);
    hide Groupable, UniqueIds;
    GroupNode(cat, root, g);
    forall id ensures Get(AuthoredParams(h.Nodes()), id) == Get(h.params, id) {
      GroupedIds(cat, root, g, id);
      AuthoredAt(h.Nodes(), id);
      AuthoredAt(doc.graph.nodes, id);
      GroupedParams(cat, root, g, id);
      if id in h.Ids() && id != g.id {
        OutsideNode(cat, root, g, id);
      }
    }
    SameMaps(AuthoredParams(h.Nodes()), h.params);
  }

  lemma UniqueRoot(cat: Catalog, root: Instance)
    requires GraphWired(cat, root)
    ensures UniqueIds(root.Nodes())
  {
  }

  lemma AuthoredAt(nodes: seq<Node>, id: NodeId)
    ensures Get(AuthoredParams(nodes), id) == if id in NodeIds(nodes) then Some(NodeOf(nodes, id).params) else None
  {
    hide NodeOf, NodeIds;
  }

  lemma GroupedParams(cat: Catalog, root: Instance, g: Group, id: NodeId)
    ensures Get(Grouped(cat, root, g).params, id) == if id == g.id then Some(map[]) else if id in g.nodes then None else Get(root.params, id)
  {
    hide OuterEdges, Chosen, Inside;
  }

  /** The new definition as the enlarged closure nests it: the children are the document's own. */
  lemma InsideNested(cat: Catalog, doc: Document, fetched: Definitions, root: Instance, g: Group, id: NodeId)
    requires MayGroup(cat, doc, fetched, root, g) && SoundClosure(fetched[g.key := Inside(cat, root, g).definition])
    requires id in ComponentNodes(Inside(cat, root, g).Nodes())
    ensures id in ComponentNodes(doc.graph.nodes) && id in g.nodes && RootKey(doc, id) in fetched
    ensures KeyOfNested(fetched[g.key := Inside(cat, root, g).definition], g.key, id) == RootKey(doc, id)
    ensures InstanceFaults(cat, fetched, RootKey(doc, id), NodeOf(doc.graph.nodes, id).params, [id]) == {}
    ensures var c := Inside(cat, root, g);
      id in c.children && c.children[id] == Instantiate(fetched, RootKey(doc, id), NodeOf(doc.graph.nodes, id).params)
  {
    hide WellWired, TerminalNodes, ParamFaults, KeysOf, DuplicateRefFaults, NoFanIn, GraphWired, SoundClosure, AllClean, Instances, NodeOf, DefinitionFaults, Inside;
    hide Height, InstanceFaults, Instantiate, Groupable, NodeIds;
    InsideChildIs(cat, doc, fetched, root, g, id);
    ChildIs(cat, doc, fetched, root, id);
    InsideStructure(cat, doc, fetched, root, g);
  }

  lemma MayGroupFacts(cat: Catalog, doc: Document, fetched: Definitions, root: Instance, g: Group)
    requires MayGroup(cat, doc, fetched, root, g)
    ensures SoundClosure(fetched) && AllClean(cat, fetched) && Resolvable(doc) && g.key !in fetched && ParamFaults(cat, doc.graph.nodes) == {}
    ensures Inside(cat, root, g).definition.key == g.key && Inside(cat, root, g).definition.graph.nodes == Inside(cat, root, g).Nodes()
  {
    hide SoundClosure, AllClean, Resolvable, ParamFaults, WellWired, Instances, DefinitionFaults, Groupable, NoFanIn;
  }

  lemma InsideInstance(cat: Catalog, doc: Document, fetched: Definitions, root: Instance, g: Group)
    requires MayGroup(cat, doc, fetched, root, g) && SoundClosure(fetched[g.key := Inside(cat, root, g).definition])
    ensures Instantiate(fetched[g.key := Inside(cat, root, g).definition], g.key, map[]) == Inside(cat, root, g)
  {
    hide SoundClosure, MayGroup, Inside, NodeOf, NodeIds, Height, EffectiveParams, AuthoredParams, KeyOfNested, Instantiate, InstanceFaults, Resolvable, ParamFaults, AllClean;
    var c := Inside(cat, root, g);
    var fetched' := fetched[g.key := c.definition];
    MayGroupFacts(cat, doc, fetched, root, g);
    NoneProvided(c.definition, []);
    AuthoredInside(cat, doc, fetched, root, g);
    var a := Instantiate(fetched', g.key, map[]);
    InstantiateIs(fetched', g.key, map[]);
    forall id ensures Get(a.children, id) == Get(c.children, id) {
      if id in ComponentNodes(c.Nodes()) {
        InsideNested(cat, doc, fetched, root, g, id);
        SameInstance(fetched, c.definition, RootKey(doc, id), NodeOf(doc.graph.nodes, id).params);
      } else if id in c.children {
        ChildrenAreComponents(cat, doc, fetched, root, g, id);
      }
    }
    SameMaps(a.children, c.children);
  }

  lemma InstantiateIs(fetched: Definitions, key: ComponentKey, provided: Params)
    requires SoundClosure(fetched) && key in fetched
    ensures var d, effective := fetched[key], EffectiveParams(fetched[key], provided);
      var inst := Instantiate(fetched, key, provided);
      inst.definition == d && inst.params == effective
      && forall id :: Get(inst.children, id) == if id in ComponentNodes(d.graph.nodes)
                                                then Some(Instantiate(fetched, KeyOfNested(fetched, key, id), effective[id])) else None
  {
    hide SoundClosure, EffectiveParams, KeyOfNested, Height, NodeIds;
  }

  lemma ChildrenAreComponents(cat: Catalog, doc: Document, fetched: Definitions, root: Instance, g: Group, id: NodeId)
    requires MayGroup(cat, doc, fetched, root, g) && id in Inside(cat, root, g).children
    ensures id in ComponentNodes(Inside(cat, root, g).Nodes())
  {
    hide WellWired, TerminalNodes, ParamFaults, KeysOf, DuplicateRefFaults, NoFanIn, GraphWired, SoundClosure, AllClean, NodeOf, DefinitionFaults, Groupable, Instantiate, InstanceFaults, NodeIds;
    RootIs(cat, doc, fetched, root);
    assert id in root.children && id in g.nodes;
    assert id in ComponentNodes(doc.graph.nodes);
    InsideNode(cat, root, g, id);
  }

  lemma InsideAccepted(cat: Catalog, doc: Document, fetched: Definitions, root: Instance, g: Group)
    requires MayGroup(cat, doc, fetched, root, g) && SoundClosure(fetched[g.key := Inside(cat, root, g).definition])
    ensures InstanceFaults(cat, fetched[g.key := Inside(cat, root, g).definition], g.key, map[], [g.id]) == {}
  {
    hide SoundClosure, MayGroup, Inside, NodeOf, NodeIds, Height, EffectiveParams, AuthoredParams, KeyOfNested, Instantiate, Resolvable, ParamFaults, AllClean, ProvidedFaults, EffectiveFaults;
    var c := Inside(cat, root, g);
    var fetched' := fetched[g.key := c.definition];
    MayGroupFacts(cat, doc, fetched, root, g);
    NoneProvided(c.definition, [g.id]);
    AuthoredInside(cat, doc, fetched, root, g);
    AuthoredAccepted(cat, doc, fetched, root, g);
    forall id | id in ComponentNodes(c.Nodes())
      ensures InstanceFaults(cat, fetched', KeyOfNested(fetched', g.key, id), AuthoredParams(c.Nodes())[id], [g.id] + [id]) == {}
    {
      InsideNested(cat, doc, fetched, root, g, id);
      AcceptedElsewhere(cat, fetched, c.definition, RootKey(doc, id), NodeOf(doc.graph.nodes, id).params, [id], [g.id] + [id]);
    }
  }

  /** The parameters of the moved registered nodes were accepted at the top level. */
  lemma AuthoredAccepted(cat: Catalog, doc: Document, fetched: Definitions, root: Instance, g: Group)
    requires MayGroup(cat, doc, fetched, root, g)
    ensures AuthoredParams(Inside(cat, root, g).Nodes()).Keys == NodeIds(Inside(cat, root, g).Nodes())
    ensures EffectiveFaults(cat, AuthoredParams(Inside(cat, root, g).Nodes()), [g.id], Inside(cat, root, g).Nodes()) == {}
  {
    hide SoundClosure, MayGroup, Inside, NodeOf, Resolvable, ParamFaults, AllClean, UniqueIds, GraphWired;
    var nodes := Inside(cat, root, g).Nodes();
    var effective := AuthoredParams(nodes);
    MayGroupFacts(cat, doc, fetched, root, g);
    ParamsNone(cat, doc.graph.nodes);
    MovedNodes(cat, doc, fetched, root, g);
    hide NodeIds;
    forall i | 0 <= i < |nodes| ensures EffectiveFault(cat, effective, [g.id], nodes[i]) == {} {
      var n := nodes[i];
      assert n in nodes;
      NodeOfUnique(nodes, n);
      assert ParamFault(cat, n) == {};
      assert effective[n.id] == n.params;
    }
    UnionEmpty(seq(|nodes|, i requires 0 <= i < |nodes| => EffectiveFault(cat, effective, [g.id], nodes[i])));
  }

  lemma MovedNodes(cat: Catalog, doc: Document, fetched: Definitions, root: Instance, g: Group)
    requires MayGroup(cat, doc, fetched, root, g)
    ensures UniqueIds(Inside(cat, root, g).Nodes()) && forall n :: n in Inside(cat, root, g).Nodes() ==> n in doc.graph.nodes
  {
    hide MayGroup, Inside;
    RootIs(cat, doc, fetched, root) by { MayGroupAccepted(cat, doc, fetched, root, g); }
    InsideUnique(cat, root, g);
    forall n | n in Inside(cat, root, g).Nodes() ensures n in doc.graph.nodes {
      InsideHolds(cat, root, g, n);
    }
  }

  lemma MayGroupAccepted(cat: Catalog, doc: Document, fetched: Definitions, root: Instance, g: Group)
    requires MayGroup(cat, doc, fetched, root, g)
    ensures Accepted(cat, doc, fetched, root) && Groupable(root, g)
  {
    hide Accepted, Groupable;
  }

  /** The grouped document resolves, with nothing to report, to the children of the grouped instance. */
  lemma GroupedInstances(cat: Catalog, doc: Document, fetched: Definitions, root: Instance, g: Group)
    requires MayGroup(cat, doc, fetched, root, g) && SoundClosure(fetched[g.key := Inside(cat, root, g).definition])
    requires Resolvable(GroupedDocument(cat, doc, root, g))
    requires KeysOf(GroupedDocument(cat, doc, root, g).refs) <= fetched[g.key := Inside(cat, root, g).definition].Keys
    ensures Instances(cat, GroupedDocument(cat, doc, root, g), fetched[g.key := Inside(cat, root, g).definition])
            == ResolvedStrategy({}, Grouped(cat, root, g).children)
  {
    hide SoundClosure, MayGroup, Inside, NodeOf, NodeIds, Height, Instantiate, Resolvable, ParamFaults, AllClean, KeysOf, InstanceFaults, Grouped, GroupedDocument;
    var doc', h, d := GroupedDocument(cat, doc, root, g), Grouped(cat, root, g), Inside(cat, root, g).definition;
    var fetched' := fetched[g.key := d];
    var all := Instances(cat, doc', fetched');
    MayGroupFacts(cat, doc, fetched, root, g);
    forall id
      ensures id in ComponentNodes(doc'.graph.nodes) ==> InstanceFaults(cat, fetched', RootKey(doc', id), NodeOf(doc'.graph.nodes, id).params, [id]) == {}
      ensures Get(all.instances, id) == Get(h.children, id)
    {
      InstanceStays(cat, doc, fetched, root, g, id);
    }
    SameMaps(all.instances, h.children);
  }

  lemma InstanceStays(cat: Catalog, doc: Document, fetched: Definitions, root: Instance, g: Group, id: NodeId)
    requires MayGroup(cat, doc, fetched, root, g) && SoundClosure(fetched[g.key := Inside(cat, root, g).definition])
    requires Resolvable(GroupedDocument(cat, doc, root, g))
    ensures var doc', fetched' := GroupedDocument(cat, doc, root, g), fetched[g.key := Inside(cat, root, g).definition];
      id in ComponentNodes(doc'.graph.nodes) ==>
        RootKey(doc', id) in fetched'
        && InstanceFaults(cat, fetched', RootKey(doc', id), NodeOf(doc'.graph.nodes, id).params, [id]) == {}
        && Get(Grouped(cat, root, g).children, id) == Some(Instantiate(fetched', RootKey(doc', id), NodeOf(doc'.graph.nodes, id).params))
    ensures id !in ComponentNodes(GroupedDocument(cat, doc, root, g).graph.nodes) ==> id !in Grouped(cat, root, g).children
  {
    hide SoundClosure, MayGroup, Inside, NodeOf, NodeIds, Height, Instantiate, Resolvable, ParamFaults, AllClean, InstanceFaults, Grouped, GroupedDocument;
    var d := Inside(cat, root, g).definition;
    MayGroupFacts(cat, doc, fetched, root, g);
    RootKeys(cat, doc, fetched, root, g, id);
    GroupedChildren(cat, doc, fetched, root, g, id);
    if id == g.id {
      InsideInstance(cat, doc, fetched, root, g);
      InsideAccepted(cat, doc, fetched, root, g);
    } else if id in ComponentNodes(doc.graph.nodes) && id !in g.nodes {
      MayGroupAccepted(cat, doc, fetched, root, g);
      ChildIs(cat, doc, fetched, root, id);
      SameInstance(fetched, d, RootKey(doc, id), NodeOf(doc.graph.nodes, id).params);
      AcceptedElsewhere(cat, fetched, d, RootKey(doc, id), NodeOf(doc.graph.nodes, id).params, [id], [id]);
    }
  }

  lemma GroupedChildren(cat: Catalog, doc: Document, fetched: Definitions, root: Instance, g: Group, id: NodeId)
    requires MayGroup(cat, doc, fetched, root, g)
    ensures Get(Grouped(cat, root, g).children, id) ==
      if id == g.id then Some(Inside(cat, root, g)) else if id in ComponentNodes(doc.graph.nodes) && id !in g.nodes then Get(root.children, id) else None
  {
    hide MayGroup, Inside, NodeOf, NodeIds, Accepted, SoundClosure, Instantiate, Resolvable, InstanceFaults;
    MayGroupAccepted(cat, doc, fetched, root, g);
    RootIs(cat, doc, fetched, root);
    InstanceKeys(cat, doc, fetched, root);
  }

  lemma InstanceKeys(cat: Catalog, doc: Document, fetched: Definitions, root: Instance)
    requires Accepted(cat, doc, fetched, root)
    ensures root.children.Keys == ComponentNodes(doc.graph.nodes)
  {
    hide WellWired, TerminalNodes, ParamFaults, KeysOf, DuplicateRefFaults, NoFanIn, SoundClosure, AllClean, NodeOf, DefinitionFaults, Instantiate, InstanceFaults, NodeIds, Resolvable;
  }

  /** The store with the new definition in it. */
  function GroupedStore(cat: Catalog, store: Definitions, root: Instance, g: Group): Definitions {
    store[g.key := Inside(cat, root, g).definition]
  }

  lemma GroupedKeyed(cat: Catalog, store: Definitions, root: Instance, g: Group)
    requires KeyedByIdentity(store)
    ensures KeyedByIdentity(GroupedStore(cat, store, root, g))
  {
    hide InnerEdges, InPorts, OutPorts, Chosen;
  }

  /** Resolution of the grouped document against the enlarged store. */
  lemma GroupedResolves(cat: Catalog, doc: Document, store: Definitions, root: Instance, g: Group)
    requires KeyedByIdentity(store) && KeyedByIdentity(GroupedStore(cat, store, root, g))
    requires g.key !in store && AbsentOf(store, KeysOf(doc.refs)) == {}
    requires MayGroup(cat, doc, ClosureOf(store, KeysOf(doc.refs)), root, g)
    requires Resolvable(GroupedDocument(cat, doc, root, g))
    ensures Resolve(cat, GroupedDocument(cat, doc, root, g), GroupedStore(cat, store, root, g)) == ResolvedStrategy({}, Grouped(cat, root, g).children)
  {
    hide SoundClosure, MayGroup, Inside, Resolvable, ParamFaults, AllClean, KeysOf, Grouped, GateFaults, ClosureOf, AbsentOf, Instances, GroupedDocument, KeyedByIdentity;
    var doc', store', d := GroupedDocument(cat, doc, root, g), GroupedStore(cat, store, root, g), Inside(cat, root, g).definition;
    var roots, fetched := KeysOf(doc.refs), ClosureOf(store, KeysOf(doc.refs));
    DocumentKeys(cat, doc, root, g);
    MayGroupFacts(cat, doc, fetched, root, g);
    InsideStructure(cat, doc, fetched, root, g);
    ClosureGains(store, roots, d);
    assert KeysOf(doc'.refs) == roots + {g.key};
    GroupedGates(cat, doc, fetched, root, g);
    GatesAreSound(cat, store', KeysOf(doc'.refs), fetched[g.key := d], {});
    GroupedInstances(cat, doc, fetched, root, g);
  }

  lemma DocumentKeys(cat: Catalog, doc: Document, root: Instance, g: Group)
    ensures KeysOf(GroupedDocument(cat, doc, root, g).refs) == KeysOf(doc.refs) + {g.key}
  {
    hide KeysOf, Grouped;
    RefsAppended(doc.refs, ComponentRef(g.ref, g.key));
  }

  /* ---- its pre-flight ---- */

  /** Tables agree with the instance whether component nodes are looked up in it or left out. */
  lemma TablesAgree(cat: Catalog, x: Instance, defs: map<NodeId, Definition>)
    requires forall id :: id in defs ==> id in x.children && defs[id] == x.children[id].definition
    ensures Agrees(cat, x, Tables(cat, defs, x.Nodes()))
  {
    hide NodeOf, NodeIds, OutputTypes, InputTypes, ExposedTypes;
    var t := Tables(cat, defs, x.Nodes());
    forall id | id in x.Ids()
      ensures Get(t.outputs, id).Some? ==> Get(t.outputs, id) == Some(OutputTable(cat, x, id))
      ensures Get(t.inputs, id).Some? ==> Get(t.inputs, id) == Some(InputTable(cat, x, id))
    {
      assert Get(t.outputs, id) == NodeOutputs(cat, defs, NodeOf(x.Nodes(), id));
      assert Get(t.inputs, id) == NodeInputs(cat, defs, NodeOf(x.Nodes(), id));
    }
  }

  lemma ParamsOutside(cat: Catalog, doc: Document, fetched: Definitions, root: Instance, g: Group)
    requires MayGroup(cat, doc, fetched, root, g)
    ensures ParamFaults(cat, Grouped(cat, root, g).Nodes()) == {}
  {
    hide MayGroup, Grouped, ParamFaults, SoundClosure, AllClean, Accepted, Resolvable;
    MayGroupFacts(cat, doc, fetched, root, g);
    MayGroupAccepted(cat, doc, fetched, root, g);
    RootIs(cat, doc, fetched, root);
    var nodes := Grouped(cat, root, g).Nodes();
    ParamsNone(cat, doc.graph.nodes);
    forall n | n in nodes ensures ParamFault(cat, n) == {} {
      OutsideHolds(cat, root, g, n);
    }
    ParamsNone(cat, nodes);
  }

  lemma GroupedSemantics(cat: Catalog, doc: Document, fetched: Definitions, root: Instance, g: Group)
    requires MayGroup(cat, doc, fetched, root, g)
    ensures SemanticsFaults(cat, GroupedDocument(cat, doc, root, g).graph) == {}
  {
    hide MayGroup, Grouped, GraphWired, NoFanIn, Tables, NodeTypeFaults, EdgesPortFaults, RequiredFaults, ParamFaults, Targets, Agrees;
    var h := Grouped(cat, root, g);
    DocumentIs(cat, doc, fetched, root, g);
    TablesAgree(cat, h, map[]);
    NothingExposed(h, h.definition.graph);
    NodesSilent(cat, h, Targets(h.Edges()));
    EdgesSilent(cat, h, Tables(cat, map[], h.Nodes()), {});
    ParamsOutside(cat, doc, fetched, root, g);
  }

  lemma UnfedNone(x: Instance, connected: set<Slot>, id: NodeId)
    requires CollectsFeeds(x, connected) && id in x.children && ComponentReady(x, id)
    ensures TopUnfed(x.children, connected, id) == {}
  {
    hide CollectsFeeds, Fed, DistinctNames;
    var ports := x.children[id].definition.exposedInputs;
    forall k | 0 <= k < |ports| ensures (id, ports[k].name) in connected {
      assert ports[k] in ports;
      FedIsConnected(x, connected, id, ports[k].name);
    }
  }

  lemma GroupedToplevel(cat: Catalog, doc: Document, fetched: Definitions, root: Instance, g: Group)
    requires MayGroup(cat, doc, fetched, root, g)
    ensures ToplevelFaults(cat, GroupedDocument(cat, doc, root, g).graph, Grouped(cat, root, g).children) == {}
  {
    hide MayGroup, Grouped, Tables, TopEdgeFaults, DuplicateTargets, Targets, Agrees, CollectsFeeds, TopUnfed;
    var h := Grouped(cat, root, g);
    DocumentIs(cat, doc, fetched, root, g);
    TablesAgree(cat, h, DefinitionsOf(h.children));
    NothingExposed(h, h.definition.graph);
    NoFanInSilent(h.Edges());
    EdgesSilent(cat, h, Tables(cat, DefinitionsOf(h.children), h.Nodes()), h.children.Keys);
    ChildrenReadyAll(cat, doc, fetched, root, g);
    hide GraphWired;
    forall id | id in h.children ensures TopUnfed(h.children, Targets(h.Edges()), id) == {} {
      UnfedNone(h, Targets(h.Edges()), id);
    }
  }

  lemma ChildrenReadyAll(cat: Catalog, doc: Document, fetched: Definitions, root: Instance, g: Group)
    requires MayGroup(cat, doc, fetched, root, g)
    ensures forall id :: id in Grouped(cat, root, g).children ==> ComponentReady(Grouped(cat, root, g), id)
  {
    hide MayGroup, Grouped, ComponentReady, RegisteredReady, EdgeTyped, Acyclic, NodeOf, NodeIds, UniqueIds, NoFanIn, Accepted, Groupable, Resolvable, Instances;
    var h := Grouped(cat, root, g);
    DocumentIs(cat, doc, fetched, root, g);
    MayGroupAccepted(cat, doc, fetched, root, g);
    RootIs(cat, doc, fetched, root);
    GroupableId(root, g);
    forall id | id in h.children ensures ComponentReady(h, id) {
      GroupedChildren(cat, doc, fetched, root, g, id);
      GroupNode(cat, root, g);
      if id != g.id {
        OutsideNode(cat, root, g, id);
      }
      assert id in ComponentIds(h);
    }
  }

  /** The terminal node stays outside, and stays the only one. */
  lemma {:induction false} TerminalsOutside(nodes: seq<Node>, ids: set<NodeId>)
    requires forall n :: n in TerminalNodes(nodes) ==> n.id !in ids
    ensures TerminalNodes(Chosen(nodes, ids, false)) == TerminalNodes(nodes)
  {
    if nodes != [] {
      var front, last := nodes[..|nodes| - 1], nodes[|nodes| - 1];
      TerminalsOutside(front, ids);
      var kept := Chosen(front, ids, false);
      if last.id in ids {
        assert Chosen(nodes, ids, false) == kept;
        assert last !in TerminalNodes(nodes);
      } else {
        assert Chosen(nodes, ids, false) == kept + [last];
        assert (kept + [last])[..|kept|] == kept;
      }
    }
  }

  lemma TerminalsStay(cat: Catalog, doc: Document, fetched: Definitions, root: Instance, g: Group)
    requires MayGroup(cat, doc, fetched, root, g)
    ensures TerminalNodes(GroupedDocument(cat, doc, root, g).graph.nodes) == TerminalNodes(doc.graph.nodes)
    ensures |TerminalNodes(doc.graph.nodes)| == 1
  {
    hide Accepted, Groupable, OuterEdges, Inside;
    RootIs(cat, doc, fetched, root);
    TerminalsOutside(doc.graph.nodes, g.nodes);
    var outside, c := Chosen(root.Nodes(), g.nodes, false), Component(g.id, g.ref, map[]);
    assert (outside + [c])[..|outside|] == outside;
    OneTerminal(cat, doc, fetched, root);
  }

  lemma OneTerminal(cat: Catalog, doc: Document, fetched: Definitions, root: Instance)
    requires Accepted(cat, doc, fetched, root)
    ensures |TerminalNodes(doc.graph.nodes)| == 1
  {
    hide TerminalNodes, SoundClosure, AllClean, Resolvable, ParamFaults, WellWired, Instances, DefinitionFaults, NoFanIn;
  }

  lemma GroupedRoot(cat: Catalog, doc: Document, fetched: Definitions, root: Instance, g: Group)
    requires MayGroup(cat, doc, fetched, root, g)
    ensures RootOf(GroupedDocument(cat, doc, root, g), Grouped(cat, root, g).children) == Grouped(cat, root, g)
  {
    hide MayGroup, Grouped, GraphWired, NoFanIn;
    DocumentIs(cat, doc, fetched, root, g);
    AuthoredOutside(cat, doc, fetched, root, g);
  }

  /** Pre-flight accepts the grouped document, and resolves it to the grouped instance. */
  lemma GroupedIsAccepted(cat: Catalog, doc: Document, store: Definitions, root: Instance, g: Group)
    requires KeyedByIdentity(store) && g.key !in store && AbsentOf(store, KeysOf(doc.refs)) == {}
    requires MayGroup(cat, doc, ClosureOf(store, KeysOf(doc.refs)), root, g)
    ensures KeyedByIdentity(GroupedStore(cat, store, root, g))
    ensures var preflight := PreflightOf(cat, GroupedDocument(cat, doc, root, g), GroupedStore(cat, store, root, g));
      preflight.Ok() && RootOf(GroupedDocument(cat, doc, root, g), preflight.instances) == Grouped(cat, root, g)
  {
    hide MayGroup, Grouped, KeyedByIdentity, AbsentOf, ClosureOf, KeysOf, Resolve, SemanticsFaults, ToplevelFaults, DocumentFaults, TerminalNodes, RootOf, GroupedDocument, GroupedStore, Resolvable;
    var fetched := ClosureOf(store, KeysOf(doc.refs));
    GroupedKeyed(cat, store, root, g);
    NodesDeclared(cat, doc, fetched, root, g);
    GroupedResolves(cat, doc, store, root, g);
    GroupedSemantics(cat, doc, fetched, root, g);
    GroupedToplevel(cat, doc, fetched, root, g);
    TerminalsStay(cat, doc, fetched, root, g);
    GroupedRoot(cat, doc, fetched, root, g);
  }
}
