/** Documents without components: exactly which of them pre-flight accepts. */
module FlatDocuments {
  import opened Closure
  import opened Collections
  import opened Cycles
  import opened DefinitionChecks
  import opened Diagnostics
  import opened Documents
  import opened Evaluator
  import opened Instantiation
  import opened Planning
  import opened PortWiring
  import opened Preflight
  import opened Resolution
  import opened Typing
  import opened Validation

  ghost predicate Flat(doc: Document) {
    doc.refs == [] && forall n :: n in doc.graph.nodes ==> n.Registered?
  }

  lemma NothingReachable(store: Definitions)
    ensures KeysOf([]) == {} && ClosureOf(store, {}) == map[] && AbsentOf(store, {}) == {}
  {
    var none: seq<ComponentRef> := [];
    assert KeysOf(none) == {};
    forall k ensures !Reachable(store, {}, k) {
    }
    assert ClosureOf(store, {}).Keys == {};
  }

  lemma NoWalks(pairs: Pairs)
    requires pairs == {}
    ensures Acyclic(pairs)
  {
    forall w ensures !ClosedWalk(pairs, w) {
      if |w| >= 2 && w[0] == w[|w| - 1] {
        assert (w[0], w[0 + 1]) !in pairs;
      }
    }
  }

  lemma NothingGated(cat: Catalog)
    ensures GateFaults(cat, map[], {}) == {}
  {
    var none: seq<Definition> := [];
    var m: Definitions := map[];
    assert |m.Keys| == 0;
    assert Listed(m) == none;
    assert AbsentFaults({}) == {};
    SetFaultsNone(none);
    NoWalks(RefPairs(none));
    UnionEmpty(seq(|none|, i requires 0 <= i < |none| => InvalidFault(none[i])));
    UnionEmpty(seq(|none|, i requires 0 <= i < |none| => SemanticFaults(cat, m, none[i])));
  }

  /** A flat document resolves to no instances, with nothing to report. */
  lemma FlatResolves(cat: Catalog, doc: Document, store: Definitions)
    requires KeyedByIdentity(store) && Flat(doc) && Resolvable(doc)
    ensures Resolve(cat, doc, store) == ResolvedStrategy({}, map[])
  {
    hide GateFaults, ClosureOf, AbsentOf, KeysOf, InstanceFaults, Reachable, Resolvable, KeyedByIdentity;
    NothingReachable(store);
    NothingGated(cat);
    var none: Definitions := map[];
    assert ComponentNodes(doc.graph.nodes) == {};
    GatesAreSound(cat, store, {}, none, {});
    assert Resolve(cat, doc, store) == Instances(cat, doc, none);
  }

  lemma ParamsNone(cat: Catalog, nodes: seq<Node>)
    ensures ParamFaults(cat, nodes) == {} <==> forall n :: n in nodes ==> ParamFault(cat, n) == {}
  {
    hide ParamFault;
    var rs := seq(|nodes|, i requires 0 <= i < |nodes| => ParamFault(cat, nodes[i]));
    UnionEmpty(rs);
    if ParamFaults(cat, nodes) == {} {
      forall n | n in nodes ensures ParamFault(cat, n) == {} {
        var i :| 0 <= i < |nodes| && nodes[i] == n;
        assert rs[i] == {};
      }
    }
  }

  lemma EdgesNoneIff(t: PortTables, edges: seq<Edge>)
    ensures EdgesPortFaults(t, edges) == {} <==> forall e :: e in edges ==> EdgePortFaults(t, e) == {}
  {
    hide EdgePortFaults;
    var rs := seq(|edges|, i requires 0 <= i < |edges| => EdgePortFaults(t, edges[i]));
    UnionEmpty(rs);
    if EdgesPortFaults(t, edges) == {} {
      forall e | e in edges ensures EdgePortFaults(t, e) == {} {
        EdgesPortNone(t, edges, e);
      }
    }
  }

  lemma DuplicateRefsNone(refs: seq<ComponentRef>)
    ensures refs == [] ==> DuplicateRefFaults(refs) == {} && RefIds(refs) == {}
  {
    UnionEmpty(seq(|refs|, i requires 0 <= i < |refs| => DuplicateRefFault(refs, i)));
  }

  /** One registered node of a flat document, as the semantic layer checks it. */
  predicate NodeAccepted(cat: Catalog, g: Graph, n: Node) {
    n.Registered?
    && match cat.Resolve(n.typeId, n.version)
       case Resolved(i) => i.paramsOk(n.params) && forall p :: p in i.inputs && p.required ==> (n.id, p.name) in Targets(g.edges)
       case _ => false
  }

  lemma NodeAcceptedIff(cat: Catalog, g: Graph, n: Node)
    requires n.Registered?
    ensures NodeAccepted(cat, g, n) <==>
      cat.Resolve(n.typeId, n.version).Resolved? && UnfedRequired(cat, Targets(g.edges), n) == {} && ParamFault(cat, n) == {}
  {
    hide Targets;
    if cat.Resolve(n.typeId, n.version).Resolved? {
      var i := cat.Resolve(n.typeId, n.version).implementation;
      if UnfedRequired(cat, Targets(g.edges), n) == {} {
        forall p | p in i.inputs && p.required ensures (n.id, p.name) in Targets(g.edges) {
          assert (n.id, p.name) !in Targets(g.edges) ==> Fault(RequiredInputUnconnected, p.name) in UnfedRequired(cat, Targets(g.edges), n);
        }
      }
    }
  }

  /** What the document and the catalog must satisfy. */
  ghost predicate FlatAcceptable(cat: Catalog, doc: Document) {
    var g := doc.graph;
    && doc.schemaSupported
    && GraphOk(g, {})
    && (forall n :: n in g.nodes ==> NodeAccepted(cat, g, n))
    && (forall e :: e in g.edges ==> EdgeFits(Tables(cat, map[], g.nodes), e))
    && DuplicateTargets(g.edges) == {}
    && |TerminalNodes(g.nodes)| == 1
  }

  lemma TableEntries(cat: Catalog, g: Graph, e: Edge)
    requires GraphOk(g, {}) && e in g.edges && forall n :: n in g.nodes ==> n.Registered? && cat.Resolve(n.typeId, n.version).Resolved?
    ensures Get(Tables(cat, map[], g.nodes).outputs, e.src).Some? && Get(Tables(cat, map[], g.nodes).inputs, e.dst).Some?
  {
    hide Tables;
    assert (e.src, e.dst) in EdgePairs(g.edges);
  }

  lemma SemanticsIff(cat: Catalog, g: Graph)
    requires GraphOk(g, {}) && forall n :: n in g.nodes ==> n.Registered?
    ensures SemanticsFaults(cat, g) == {} <==>
      (forall n :: n in g.nodes ==> NodeAccepted(cat, g, n)) && forall e :: e in g.edges ==> EdgeFits(Tables(cat, map[], g.nodes), e)
  {
    hide Tables, GraphOk, NodeTypeFaults, EdgesPortFaults, RequiredFaults, ParamFaults, UnfedRequired, ParamFault, EdgePortFaults, EdgeFits, Targets, NodeAccepted;
    NodeTypesNone(cat, g.nodes);
    RequiredNone(cat, Targets(g.edges), g.nodes);
    ParamsNone(cat, g.nodes);
    EdgesNoneIff(Tables(cat, map[], g.nodes), g.edges);
    forall n | n in g.nodes
      ensures NodeAccepted(cat, g, n) <==>
        cat.Resolve(n.typeId, n.version).Resolved? && UnfedRequired(cat, Targets(g.edges), n) == {} && ParamFault(cat, n) == {}
    {
      NodeAcceptedIff(cat, g, n);
    }
    if forall n :: n in g.nodes ==> cat.Resolve(n.typeId, n.version).Resolved? {
      forall e | e in g.edges ensures EdgePortFaults(Tables(cat, map[], g.nodes), e) == {} <==> EdgeFits(Tables(cat, map[], g.nodes), e) {
        TableEntries(cat, g, e);
        EdgePortsNone(Tables(cat, map[], g.nodes), e);
      }
    }
  }

  lemma ToplevelIff(cat: Catalog, g: Graph)
    ensures ToplevelFaults(cat, g, map[]) == {} <==> DuplicateTargets(g.edges) == {}
  {
    hide Tables, DuplicateTargets, Targets;
    var none: map<NodeId, Instance> := map[];
    var t := Tables(cat, DefinitionsOf(none), g.nodes);
    UnionEmpty(seq(|g.edges|, i requires 0 <= i < |g.edges| => TopEdgeFault(t, none.Keys, g.edges[i])));
    assert TopUnfedFaults(none, Targets(g.edges)) == {};
    forall s | s in DuplicateTargets(g.edges) ensures Diagnostic(AmbiguousInput, [s.0], s.1) in ToplevelFaults(cat, g, none) {
    }
  }

  lemma DocumentIff(doc: Document)
    requires Flat(doc)
    ensures DocumentFaults(doc) == {} <==> doc.schemaSupported && GraphOk(doc.graph, {})
  {
    hide GraphFaults, GraphOk, DuplicateRefFaults;
    DuplicateRefsNone(doc.refs);
    GraphFaultsNone(doc.graph, {});
  }

  /** Pre-flight accepts a document without components exactly when it is well formed: distinct ids, existing endpoints, no
      cycle, resolvable types with valid parameters and fed required inputs, edges between existing compatible ports, no
      fan-in, one terminal. */
  lemma FlatPreflightIff(cat: Catalog, doc: Document, store: Definitions)
    requires KeyedByIdentity(store) && Flat(doc)
    ensures PreflightOf(cat, doc, store).Ok() <==> FlatAcceptable(cat, doc)
    ensures PreflightOf(cat, doc, store).instances == map[]
  {
    hide SemanticsFaults, ToplevelFaults, Resolve, GraphOk, DocumentFaults, NodeAccepted, EdgeFits, Tables, DuplicateTargets, TerminalNodes, KeyedByIdentity;
    DocumentIff(doc);
    if DocumentFaults(doc) == {} {
      CleanDocument(doc);
      FlatResolves(cat, doc, store);
      SemanticsIff(cat, doc.graph);
      ToplevelIff(cat, doc.graph);
    }
  }
}
