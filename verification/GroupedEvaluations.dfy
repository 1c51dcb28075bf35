/** Grouping a document's nodes into a component changes none of its targets. */
module GroupedEvaluations {
  import opened Closure
  import opened Collections
  import opened Compositionality
  import opened Convexity
  import Cycles
  import opened Diagnostics
  import opened Documents
  import opened Evaluator
  import opened Execution
  import opened Flattening
  import opened GroupedDocuments
  import opened GroupedRuns
  import opened Grouping
  import opened Planning
  import opened PortWiring
  import opened Preflight
  import opened Regrouping
  import opened Resolution
  import opened StrategyEvaluation
  import opened Typing
  import opened Validation

  /** What grouping asks of an accepted document: unused names, no path of edges that leaves the set and comes back, and
      the terminal node left outside. */
  ghost predicate CanGroup(doc: Document, store: Definitions, g: Group) {
    && g.id !in NodeIds(doc.graph.nodes) && g.ref !in RefIds(doc.refs) && g.key !in store
    && Convex(EdgePairs(doc.graph.edges), g.nodes)
    && forall n :: n in TerminalNodes(doc.graph.nodes) ==> n.id !in g.nodes
  }

  ghost function After(cat: Catalog, doc: Document, store: Definitions, g: Group): Document
    requires KeyedByIdentity(store)
  {
    GroupedDocument(cat, doc, RootInstance(cat, doc, store), g)
  }

  ghost function StoreAfter(cat: Catalog, doc: Document, store: Definitions, g: Group): (r: Definitions)
    requires KeyedByIdentity(store)
    ensures KeyedByIdentity(r)
  {
    GroupedKeyed(cat, store, RootInstance(cat, doc, store), g);
    GroupedStore(cat, store, RootInstance(cat, doc, store), g)
  }

  lemma CanGroupMay(cat: Catalog, doc: Document, store: Definitions, g: Group)
    requires KeyedByIdentity(store) && PreflightOf(cat, doc, store).Ok() && CanGroup(doc, store, g)
    ensures AbsentOf(store, KeysOf(doc.refs)) == {}
    ensures MayGroup(cat, doc, ClosureOf(store, KeysOf(doc.refs)), RootInstance(cat, doc, store), g)
  {
    hide PreflightOf, KeyedByIdentity, AbsentOf, ClosureOf, KeysOf, Accepted, RootOf, TerminalNodes, Convex, Groupable;
    CleanIsAccepted(cat, doc, store);
    var fetched, root := ClosureOf(store, KeysOf(doc.refs)), RootInstance(cat, doc, store);
    assert Accepted(cat, doc, fetched, root);
    RootIs(cat, doc, fetched, root);
    RootEdges(cat, root);
    GroupableIffConvex(root, g);
    ClosureStored(store, KeysOf(doc.refs), g.key);
  }

  lemma RootEdges(cat: Catalog, root: Instance)
    requires GraphWired(cat, root)
    ensures Within(EdgePairs(root.Edges()), root.Ids()) && Cycles.Acyclic(EdgePairs(root.Edges()))
  {
  }

  lemma ClosureStored(store: Definitions, roots: set<ComponentKey>, key: ComponentKey)
    requires key !in store
    ensures key !in ClosureOf(store, roots)
  {
    hide Reachable;
  }

  /** Pre-flight accepts the grouped document, and resolves it to the grouped instance. */
  lemma GroupingIsAccepted(cat: Catalog, doc: Document, store: Definitions, g: Group)
    requires KeyedByIdentity(store) && PreflightOf(cat, doc, store).Ok() && CanGroup(doc, store, g)
    ensures PreflightOf(cat, After(cat, doc, store, g), StoreAfter(cat, doc, store, g)).Ok()
    ensures RootInstance(cat, After(cat, doc, store, g), StoreAfter(cat, doc, store, g)) == Grouped(cat, RootInstance(cat, doc, store), g)
    ensures TerminalNodes(After(cat, doc, store, g).graph.nodes) == TerminalNodes(doc.graph.nodes)
    ensures Groupable(RootInstance(cat, doc, store), g)
  {
    hide PreflightOf, KeyedByIdentity, MayGroup, GroupedDocument, GroupedStore, Grouped, AbsentOf, ClosureOf, CanGroup, RootOf, Groupable, TerminalNodes;
    CanGroupMay(cat, doc, store, g);
    var root, fetched := RootInstance(cat, doc, store), ClosureOf(store, KeysOf(doc.refs));
    GroupedIsAccepted(cat, doc, store, root, g) by { FreshKey(doc, store, g); }
    TerminalsStay(cat, doc, fetched, root, g);
    MayGroupAccepted(cat, doc, fetched, root, g);
  }

  lemma FreshKey(doc: Document, store: Definitions, g: Group)
    requires CanGroup(doc, store, g)
    ensures g.key !in store && g.id !in NodeIds(doc.graph.nodes) && forall n :: n in TerminalNodes(doc.graph.nodes) ==> n.id !in g.nodes
  {
    hide Convex, TerminalNodes;
  }

  /** Grouping keeps the targets of every evaluation, and whether there are any. */
  lemma GroupingKeepsTargets(cat: Catalog, context: Context, context': Context, doc: Document, store: Definitions, g: Group)
    requires KeyedByIdentity(store) && PreflightOf(cat, doc, store).Ok() && CanGroup(doc, store, g)
    requires PlaceBlind(cat) && SameContext(cat, RootInstance(cat, doc, store), g, context, context')
    ensures Evaluation(cat, After(cat, doc, store, g), StoreAfter(cat, doc, store, g), context').targets == Evaluation(cat, doc, store, context).targets
  {
    hide PreflightOf, KeyedByIdentity, Runnable, WellWired, RunOf, TerminalNodes, RootInstance, CanGroup, After, StoreAfter, Grouped, PlaceBlind, SameContext, DeliveredTargets, NodeOf, Groupable;
    var doc', store' := After(cat, doc, store, g), StoreAfter(cat, doc, store, g);
    GroupingIsAccepted(cat, doc, store, g);
    NoFaultsMeansClean(cat, doc, store, context);
    NoFaultsMeansClean(cat, doc', store', context');
    RootIsRunnable(cat, doc, store);
    RootIsRunnable(cat, doc', store');
    var root, h := RootInstance(cat, doc, store), RootInstance(cat, doc', store');
    GroupingKeepsValues(cat, context, context', LeastPlan, LeastPlan, root, g);
    SameView(cat, root, g, context, context');
    var run, run' := RunOf(Planned(cat, context), root), RunOf(Planned(cat, context'), h);
    if run.failure.None? && context.view.sessions != [] {
      var t := TerminalNodes(doc.graph.nodes)[0];
      assert t in TerminalNodes(doc.graph.nodes);
      DeliveredAlike(cat, context, context', doc, store, g, t);
    }
  }

  lemma SameView(cat: Catalog, inst: Instance, g: Group, context: Context, context': Context)
    requires SameContext(cat, inst, g, context, context')
    ensures context'.view == context.view
  {
    hide LeafAt;
  }

  lemma DeliveredAlike(cat: Catalog, context: Context, context': Context, doc: Document, store: Definitions, g: Group, t: Node)
    requires KeyedByIdentity(store) && PreflightOf(cat, doc, store).Ok() && CanGroup(doc, store, g)
    requires PlaceBlind(cat) && SameContext(cat, RootInstance(cat, doc, store), g, context, context')
    requires Runnable(LeastPlan, RootInstance(cat, doc, store), []) && RunOf(Planned(cat, context), RootInstance(cat, doc, store)).failure.None?
    requires t in TerminalNodes(doc.graph.nodes)
    ensures var h := Grouped(cat, RootInstance(cat, doc, store), g);
      Runnable(LeastPlan, h, [])
      && DeliveredTargets(cat, After(cat, doc, store, g), t, RunOf(Planned(cat, context'), h).store)
         == DeliveredTargets(cat, doc, t, RunOf(Planned(cat, context), RootInstance(cat, doc, store)).store)
  {
    hide PreflightOf, KeyedByIdentity, Runnable, WellWired, RunOf, TerminalNodes, RootInstance, CanGroup, After, StoreAfter, Grouped, PlaceBlind, SameContext, InputValue, NodeOf, Groupable;
    var doc', store' := After(cat, doc, store, g), StoreAfter(cat, doc, store, g);
    GroupingIsAccepted(cat, doc, store, g);
    RootIsRunnable(cat, doc, store);
    RootIsRunnable(cat, doc', store');
    var root, h := RootInstance(cat, doc, store), RootInstance(cat, doc', store');
    RootGraphIs(cat, doc, store);
    RootGraphIs(cat, doc', store');
    FreshKey(doc, store, g);
    NodeOfUnique(doc.graph.nodes, t);
    var resolution := cat.Resolve(t.typeId, t.version);
    if resolution.Resolved? && |resolution.implementation.inputs| == 1 {
      var port := resolution.implementation.inputs[0].name;
      SingleInput(resolution.implementation);
      GroupingKeepsInputs(cat, context, context', LeastPlan, LeastPlan, root, g, t.id, port);
      DeliveredIsInput(cat, doc, t, RunOf(Planned(cat, context), root).store);
      DeliveredIsInput(cat, doc', t, RunOf(Planned(cat, context'), h).store);
    }
  }
}
