/** Moving nodes between graphs and components: what a hierarchy computes depends only on its leaves and on what feeds them. */
module Regrouping {
  import opened Collections
  import opened Compositionality
  import opened Cycles
  import opened Denotation
  import opened Diagnostics
  import opened Documents
  import opened Evaluator
  import opened Flattening
  import opened Frames
  import opened Planning
  import opened Typing

  /* ---- regrouping ---- */

  /** A move of leaves: `at` gives the old path of a new one, and `from` holds every new path of an old one. */
  datatype Move = Move(at: Path -> Path, from: Path -> set<Path>)

  ghost predicate Traceable(m: Move) {
    forall q: Path :: q in m.from(m.at(q))
  }

  /** A leaf of one document is a leaf of the other, moved: same type, same parameters, fed by the moved sources. */
  ghost predicate SameLeaf(leaf: Leaf, moved: Leaf, m: Move) {
    && moved.typeId == leaf.typeId && moved.version == leaf.version && moved.params == leaf.params
    && moved.feeds.Keys == leaf.feeds.Keys
    && forall p :: p in moved.feeds ==> leaf.feeds[p] == (m.at(moved.feeds[p].0), moved.feeds[p].1)
  }

  /** Every leaf of `regrouped` is a leaf of `inst`, at the path that the move gives. */
  ghost predicate Regroups(cat: Catalog, inst: Instance, regrouped: Instance, m: Move) {
    forall rel :: LeafAt(cat, regrouped, [], map[], rel).Some? ==> RegroupedLeaf(cat, inst, regrouped, m, rel)
  }

  ghost predicate RegroupedLeaf(cat: Catalog, inst: Instance, regrouped: Instance, m: Move, rel: Path)
    requires LeafAt(cat, regrouped, [], map[], rel).Some?
  {
    LeafAt(cat, inst, [], map[], m.at(rel)).Some?
    && SameLeaf(LeafAt(cat, inst, [], map[], m.at(rel)).value, LeafAt(cat, regrouped, [], map[], rel).value, m)
  }

  /** V moved. */
  ghost function Moved(v: Store, m: Move): (r: Store)
    requires Traceable(m)
    ensures forall q, port :: Get(r, (q, port)) == Get(v, (m.at(q), port))
  {
    map a: Address, q: Path | a in v && q in m.from(a.0) && m.at(q) == a.0 :: (q, a.1) := v[a]
  }

  lemma FeedsMoved(leaf: Leaf, moved: Leaf, m: Move, v: Store)
    requires Traceable(m) && SameLeaf(leaf, moved, m)
    ensures FeedsOf(moved, Moved(v, m)) == FeedsOf(leaf, v)
  {
    hide Moved;
    var a, b := FeedsOf(moved, Moved(v, m)), FeedsOf(leaf, v);
    forall p ensures Get(a, p) == Get(b, p) {
      if p in moved.feeds {
        var source := moved.feeds[p];
        assert Get(Moved(v, m), (source.0, source.1)) == Get(v, (m.at(source.0), source.1));
      }
    }
    SameMaps(a, b);
  }

  /** What the node type returns does not depend on where the node sits. */
  ghost predicate IgnoresPlace(i: Implementation) {
    forall inv: NodeInvocation, path: Path :: i.evaluate(inv.(path := path)).outcome == i.evaluate(inv).outcome
  }

  ghost predicate PlaceBlind(cat: Catalog) {
    forall k :: k in cat.byKey ==> IgnoresPlace(cat.byKey[k])
  }

  /** The same view, and a memo in which every leaf finds what it left at its old place. */
  ghost predicate Carried(cat: Catalog, context: Context, regrouped: Instance, moved: Context, m: Move) {
    && moved.view == context.view && (moved.memo.Some? <==> context.memo.Some?)
    && (context.memo.Some? ==> forall rel :: LeafAt(cat, regrouped, [], map[], rel).Some? ==>
          CacheIn(moved.memo.value, rel) == CacheIn(context.memo.value, m.at(rel)))
  }

  lemma MovedSolves(cat: Catalog, context: Context, context': Context, leaf: Leaf, moved: Leaf, m: Move, q: Path, v: Store)
    requires Traceable(m) && SameLeaf(leaf, moved, m) && LeafSolved(cat, context, leaf, m.at(q), v)
    requires PlaceBlind(cat) && context'.Invoked(q, leaf.params, map[]) == context.Invoked(m.at(q), leaf.params, map[]).(path := q)
    ensures LeafSolved(cat, context', moved, q, Moved(v, m))
  {
    hide Moved, FeedsOf, OutputTypes;
    FeedsMoved(leaf, moved, m, v);
    var i := cat.Resolve(leaf.typeId, leaf.version).implementation;
    assert IgnoresPlace(i);
    var inv := context.Invoked(m.at(q), leaf.params, FeedsOf(leaf, v));
    assert context'.Invoked(q, leaf.params, FeedsOf(leaf, v)) == inv.(path := q);
    ComputesIs(i.evaluate(inv).outcome, OutputTypes(i.outputs), m.at(q), v);
    ComputesIs(i.evaluate(inv).outcome, OutputTypes(i.outputs), q, Moved(v, m));
    var outcome := i.evaluate(inv).outcome;
    assert StoresOutcome(Moved(v, m), q, outcome, OutputTypes(i.outputs)) by {
      forall name ensures Get(Moved(v, m), (q, name)) == if name in OutputTypes(i.outputs) then ProducedAt(outcome.ports, name) else None {
        assert Get(Moved(v, m), (q, name)) == Get(v, (m.at(q), name));
      }
    }
  }

  /** s holds at q what t holds at q'. */
  ghost predicate StoresAlike(s: Store, q: Path, t: Store, q': Path) {
    forall port :: Get(s, (q, port)) == Get(t, (q', port))
  }

  /** The moved values solve the regrouped equations. */
  lemma MovedIsSolution(cat: Catalog, context: Context, context': Context, plan: Planner, inst: Instance, regrouped: Instance, m: Move)
    requires PlaceBlind(cat) && Traceable(m) && Carried(cat, context, regrouped, context', m)
    requires Runnable(plan, inst, []) && Regroups(cat, inst, regrouped, m)
    requires RunOf(Setting(cat, context, plan), inst).failure.None?
    ensures Equations(cat, context', regrouped, Moved(RunOf(Setting(cat, context, plan), inst).store, m))
  {
    hide RunOf, Runnable, FlatAt, LeafAt, LeafSolved, Moved, SameLeaf, GraphMeaning;
    var v := RunOf(Setting(cat, context, plan), inst).store;
    RunSolvesEquations(Setting(cat, context, plan), inst);
    forall rel | LeafAt(cat, regrouped, [], map[], rel).Some?
      ensures LeafSolved(cat, context', LeafAt(cat, regrouped, [], map[], rel).value, [] + rel, Moved(v, m))
    {
      assert RegroupedLeaf(cat, inst, regrouped, m, rel);
      assert [] + rel == rel && [] + m.at(rel) == m.at(rel);
      MovedSolves(cat, context, context', LeafAt(cat, inst, [], map[], m.at(rel)).value, LeafAt(cat, regrouped, [], map[], rel).value, m, rel, v);
    }
  }

  /** Grouping nodes into components changes no value: if a document runs, then so does any regrouping of its leaves, and
      each leaf stores what the leaf it came from stores. */
  lemma RegroupingKeepsValues(cat: Catalog, context: Context, context': Context, plan: Planner, plan': Planner, inst: Instance, regrouped: Instance, m: Move)
    requires WellWired(cat, regrouped) && TopLevel(regrouped) && Runnable(plan, inst, []) && Runnable(plan', regrouped, [])
    requires Regroups(cat, inst, regrouped, m) && PlaceBlind(cat) && Traceable(m) && Carried(cat, context, regrouped, context', m)
    requires RunOf(Setting(cat, context, plan), inst).failure.None?
    ensures RunOf(Setting(cat, context', plan'), regrouped).failure.None?
    ensures forall rel :: LeafAt(cat, regrouped, [], map[], rel).Some? ==>
      StoresAlike(RunOf(Setting(cat, context', plan'), regrouped).store, rel, RunOf(Setting(cat, context, plan), inst).store, m.at(rel))
  {
    hide RunOf, Runnable, WellWired, FlatAt, LeafAt, LeafSolved, Moved, SameLeaf, GraphMeaning, Equations;
    var sc, sc' := Setting(cat, context, plan), Setting(cat, context', plan');
    var v := RunOf(sc, inst).store;
    MovedIsSolution(cat, context, context', plan, inst, regrouped, m);
    SolutionIsComputed(sc', regrouped, Moved(v, m));
    var s' := RunOf(sc', regrouped).store;
    forall rel | LeafAt(cat, regrouped, [], map[], rel).Some? ensures StoresAlike(s', rel, v, m.at(rel)) {
      assert RegroupedLeaf(cat, inst, regrouped, m, rel);
      forall port ensures Get(s', (rel, port)) == Get(v, (m.at(rel), port)) {
        LeafStores(cat, regrouped, s', Moved(v, m), rel, port);
      }
    }
  }

  /** What the run delivers to a top-level input is what V says about the leaf behind it. */
  lemma DeliveredThrough(inst: Instance, store: Store, v: Store, id: NodeId, port: PortName)
    requires GraphMeaning(inst, [], store, v) && Within(EdgePairs(inst.Edges()), inst.Ids())
    ensures InputValue(Wiring(inst.Edges(), map[], []), store, id, port) == Through(v, FlatInput(inst, [], map[], id, port))
  {
    hide FlatOutput;
    var source := SourceOf(inst.Edges(), id, port);
    if source.Some? {
      var e := Edge(source.value.0, source.value.1, id, port);
      assert e in inst.Edges();
      assert (e.src, e.dst) in EdgePairs(inst.Edges());
      assert MeansAt(inst, [], store, v, [e.src], e.srcPort);
      assert FlatAt(inst, [], [e.src], e.srcPort) == FlatOutput(inst, [], e.src, e.srcPort);
    }
  }

  /** A leaf's corresponding input is delivered the same value in both documents. */
  lemma RegroupingKeepsInputs(cat: Catalog, context: Context, context': Context, plan: Planner, plan': Planner, inst: Instance, regrouped: Instance, m: Move,
                              id: NodeId, id': NodeId, port: PortName)
    requires WellWired(cat, regrouped) && TopLevel(regrouped) && Runnable(plan, inst, []) && Runnable(plan', regrouped, [])
    requires Regroups(cat, inst, regrouped, m) && PlaceBlind(cat) && Traceable(m) && Carried(cat, context, regrouped, context', m)
    requires RunOf(Setting(cat, context, plan), inst).failure.None?
    requires id in inst.Ids() && NodeOf(inst.Nodes(), id).Registered? && id' in regrouped.Ids() && NodeOf(regrouped.Nodes(), id').Registered?
    requires m.at([id']) == [id]
    requires var n := NodeOf(inst.Nodes(), id); port in InputNames(cat, n.typeId, n.version)
    ensures RunOf(Setting(cat, context', plan'), regrouped).failure.None?
    ensures InputValue(Wiring(regrouped.Edges(), map[], []), RunOf(Setting(cat, context', plan'), regrouped).store, id', port)
            == InputValue(Wiring(inst.Edges(), map[], []), RunOf(Setting(cat, context, plan), inst).store, id, port)
  {
    hide RunOf, WellWired, FlatAt, LeafSolved, Moved, GraphMeaning, Equations, InputValue, FlatInput, InputNames;
    var sc, sc' := Setting(cat, context, plan), Setting(cat, context', plan');
    var v := RunOf(sc, inst).store;
    RunSolvesEquations(sc, inst);
    MovedIsSolution(cat, context, context', plan, inst, regrouped, m);
    SolutionIsComputed(sc', regrouped, Moved(v, m));
    DeliveredThrough(inst, v, v, id, port);
    DeliveredThrough(regrouped, RunOf(sc', regrouped).store, Moved(v, m), id', port);
    assert RegroupedLeaf(cat, inst, regrouped, m, [id']);
    var leaf, moved := LeafAt(cat, inst, [], map[], [id]).value, LeafAt(cat, regrouped, [], map[], [id']).value;
    assert SameLeaf(leaf, moved, m);
    assert port in leaf.feeds <==> port in moved.feeds;
    if port in moved.feeds {
      var source := moved.feeds[port];
      assert Get(Moved(v, m), (source.0, source.1)) == Get(v, (m.at(source.0), source.1));
    }
  }

  lemma LeafStores(cat: Catalog, inst: Instance, store: Store, v: Store, rel: Path, port: PortName)
    requires GraphMeaning(inst, [], store, v) && LeafAt(cat, inst, [], map[], rel).Some?
    ensures Get(store, (rel, port)) == Get(v, (rel, port))
  {
    hide FlatAt, LeafAt;
    LeafIsItself(cat, inst, [], map[], rel, port);
    assert [] + rel == rel;
    assert MeansAt(inst, [], store, v, rel, port);
  }
}
