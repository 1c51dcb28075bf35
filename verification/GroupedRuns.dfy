/** Grouping nodes into a component changes nothing a strategy computes: quantize/evaluator/evaluate.py. */
module GroupedRuns {
  import opened Collections
  import opened Compositionality
  import opened Documents
  import opened Evaluator
  import opened Flattening
  import opened GroupedFlows
  import opened Grouping
  import opened Planning
  import opened PortWiring
  import opened Regrouping
  import opened Typing

  function Near(g: Group, p: Path): set<Path> {
    {p, [g.id] + p} + if p == [] then {} else {p[1..]}
  }

  /** From the grouped document to the original one, and the other way. */
  function Back(g: Group): Move { Move(q => OutOf(g, q), p => Near(g, p)) }
  function Forth(g: Group): Move { Move(p => Into(g, p), q => Near(g, q)) }

  lemma MovesTraceable(g: Group)
    ensures Traceable(Back(g)) && Traceable(Forth(g))
  {
    forall q: Path ensures q in Near(g, OutOf(g, q)) {
      if q != [] && q[0] == g.id { assert q == [g.id] + q[1..]; }
    }
    forall p: Path ensures p in Near(g, Into(g, p)) {
      if p != [] && p[0] in g.nodes { assert ([g.id] + p)[1..] == p; }
    }
  }

  lemma AlikeIsSame(g: Group, leaf: Leaf, moved: Leaf)
    requires Alike(g, leaf, moved)
    ensures SameLeaf(leaf, moved, Back(g)) && SameLeaf(moved, leaf, Forth(g))
  {
    forall port ensures SameSource(g, Get(leaf.feeds, port), Get(moved.feeds, port)) {
    }
    forall port ensures port in leaf.feeds <==> port in moved.feeds {
      assert SameSource(g, Get(leaf.feeds, port), Get(moved.feeds, port));
    }
    assert leaf.feeds.Keys == moved.feeds.Keys;
    forall port | port in moved.feeds
      ensures leaf.feeds[port] == (Back(g).at(moved.feeds[port].0), moved.feeds[port].1)
      ensures moved.feeds[port] == (Forth(g).at(leaf.feeds[port].0), leaf.feeds[port].1)
    {
      assert SameSource(g, Get(leaf.feeds, port), Get(moved.feeds, port));
    }
  }

  /** Grouping regroups: the leaves of the two documents correspond one to one, with the same types, parameters and
      sources. */
  lemma GroupingRegroups(cat: Catalog, inst: Instance, g: Group)
    requires Cuttable(inst, g)
    ensures Regroups(cat, inst, Grouped(cat, inst, g), Back(g)) && Regroups(cat, Grouped(cat, inst, g), inst, Forth(g))
  {
    hide Grouped, LeafAt, Cuttable, Alike, SameLeaf;
    var h := Grouped(cat, inst, g);
    forall q | LeafAt(cat, h, [], map[], q).Some? ensures RegroupedLeaf(cat, inst, h, Back(g), q) {
      UngroupedLeaf(cat, inst, g, q);
      AlikeIsSame(g, LeafAt(cat, inst, [], map[], OutOf(g, q)).value, LeafAt(cat, h, [], map[], q).value);
    }
    forall p | LeafAt(cat, inst, [], map[], p).Some? ensures RegroupedLeaf(cat, h, inst, Forth(g), p) {
      GroupedLeaf(cat, inst, g, p);
      AlikeIsSame(g, LeafAt(cat, inst, [], map[], p).value, LeafAt(cat, h, [], map[], Into(g, p)).value);
    }
  }

  /** The same view, and a memo in which every leaf finds its own part. Without a memo, and at the start of a run, that is
      the same context. */
  ghost predicate SameContext(cat: Catalog, inst: Instance, g: Group, context: Context, context': Context) {
    && context'.view == context.view && (context'.memo.Some? <==> context.memo.Some?)
    && (context.memo.Some? ==> forall p :: LeafAt(cat, inst, [], map[], p).Some? ==>
          CacheIn(context'.memo.value, Into(g, p)) == CacheIn(context.memo.value, p))
  }

  lemma BothCarried(cat: Catalog, inst: Instance, g: Group, context: Context, context': Context)
    requires Cuttable(inst, g) && SameContext(cat, inst, g, context, context')
    ensures Carried(cat, context, Grouped(cat, inst, g), context', Back(g)) && Carried(cat, context', inst, context, Forth(g))
  {
    hide Grouped, LeafAt, Cuttable, Alike;
    var h := Grouped(cat, inst, g);
    if context.memo.Some? {
      forall q | LeafAt(cat, h, [], map[], q).Some? ensures CacheIn(context'.memo.value, q) == CacheIn(context.memo.value, OutOf(g, q)) {
        UngroupedLeaf(cat, inst, g, q);
        assert LeafAt(cat, inst, [], map[], OutOf(g, q)).Some?;
      }
    }
  }

  lemma CuttableFrom(cat: Catalog, inst: Instance, g: Group)
    requires WellWired(cat, inst) && Groupable(inst, g)
    ensures Cuttable(inst, g)
  {
  }

  /** Grouping any nodes of any graph whose component closes no cycle: the grouped document runs exactly when the original
      one does, and every leaf stores the same values at its new place. */
  lemma GroupingKeepsValues(cat: Catalog, context: Context, context': Context, plan: Planner, plan': Planner, inst: Instance, g: Group)
    requires WellWired(cat, inst) && TopLevel(inst) && Groupable(inst, g)
    requires PlaceBlind(cat) && SameContext(cat, inst, g, context, context')
    requires Runnable(plan, inst, []) && Runnable(plan', Grouped(cat, inst, g), [])
    ensures RunOf(Setting(cat, context', plan'), Grouped(cat, inst, g)).failure.None? <==> RunOf(Setting(cat, context, plan), inst).failure.None?
    ensures RunOf(Setting(cat, context, plan), inst).failure.None? ==> forall p :: LeafAt(cat, inst, [], map[], p).Some? ==>
      StoresAlike(RunOf(Setting(cat, context', plan'), Grouped(cat, inst, g)).store, Into(g, p), RunOf(Setting(cat, context, plan), inst).store, p)
  {
    CuttableFrom(cat, inst, g);
    GroupingIsWired(cat, inst, g);
    hide Grouped, LeafAt, Cuttable, Alike, RunOf, WellWired, Runnable, Groupable, Regroups, PlaceBlind, Carried, SameContext, TopLevel, StoresAlike;
    GroupingRegroups(cat, inst, g);
    BothCarried(cat, inst, g, context, context');
    MovesTraceable(g);
    var h, run, run' := Grouped(cat, inst, g), RunOf(Setting(cat, context, plan), inst), RunOf(Setting(cat, context', plan'), Grouped(cat, inst, g));
    if run.failure.None? {
      RegroupingKeepsValues(cat, context, context', plan, plan', inst, h, Back(g));
      forall p | LeafAt(cat, inst, [], map[], p).Some? ensures StoresAlike(run'.store, Into(g, p), run.store, p) {
        GroupedLeaf(cat, inst, g, p);
        assert LeafAt(cat, h, [], map[], Into(g, p)).Some?;
        assert Back(g).at(Into(g, p)) == p;
      }
    } else if run'.failure.None? {
      RegroupingKeepsValues(cat, context', context, plan', plan, h, inst, Forth(g));
    }
  }

  /** A node left outside is delivered the same inputs. */
  lemma GroupingKeepsInputs(cat: Catalog, context: Context, context': Context, plan: Planner, plan': Planner, inst: Instance, g: Group, id: NodeId, port: PortName)
    requires WellWired(cat, inst) && TopLevel(inst) && Groupable(inst, g)
    requires PlaceBlind(cat) && SameContext(cat, inst, g, context, context')
    requires Runnable(plan, inst, []) && Runnable(plan', Grouped(cat, inst, g), [])
    requires RunOf(Setting(cat, context, plan), inst).failure.None?
    requires id in inst.Ids() && id !in g.nodes && NodeOf(inst.Nodes(), id).Registered?
    requires var n := NodeOf(inst.Nodes(), id); port in InputNames(cat, n.typeId, n.version)
    ensures var h := Grouped(cat, inst, g);
      RunOf(Setting(cat, context', plan'), h).failure.None?
      && InputValue(Wiring(h.Edges(), map[], []), RunOf(Setting(cat, context', plan'), h).store, id, port)
         == InputValue(Wiring(inst.Edges(), map[], []), RunOf(Setting(cat, context, plan), inst).store, id, port)
  {
    hide Grouped, LeafAt, Cuttable, Alike, RunOf, WellWired, Runnable, Groupable, Regroups, PlaceBlind, Carried, SameContext, TopLevel, NodeOf, NodeIds, InputValue, InputNames,
      InputTable, OutputTable;
    var h := Grouped(cat, inst, g);
    CuttableFrom(cat, inst, g);
    GroupingIsWired(cat, inst, g);
    OutsideStays(cat, inst, g, id);
    GroupingRegroups(cat, inst, g);
    BothCarried(cat, inst, g, context, context');
    MovesTraceable(g);
    RegroupingKeepsInputs(cat, context, context', plan, plan', inst, h, Back(g), id, id, port);
  }

  lemma OutsideStays(cat: Catalog, inst: Instance, g: Group, id: NodeId)
    requires Cuttable(inst, g) && id in inst.Ids() && id !in g.nodes
    ensures id in Grouped(cat, inst, g).Ids() && NodeOf(Grouped(cat, inst, g).Nodes(), id) == NodeOf(inst.Nodes(), id)
    ensures Back(g).at([id]) == [id]
  {
    hide Grouped, NodeOf, NodeIds, InputTable, OutputTable;
    OutsideNode(cat, inst, g, id);
  }
}
