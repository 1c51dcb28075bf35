/** The main theorems about strategy execution: it computes the unique solution of the flat dataflow equations,
    whatever topological order is used. */
module Compositionality {
  import opened Collections
  import opened Cycles
  import opened Denotation
  import opened Diagnostics
  import opened Documents
  import opened Evaluator
  import opened Flattening
  import opened Frames
  import opened Market
  import opened Planning
  import opened Typing

  ghost predicate AgreeBelow(v: Store, store: Store, prefix: Path) {
    forall a: Address :: prefix < a.0 ==> Get(v, a) == Get(store, a)
  }

  lemma BelowUnder(v: Store, store: Store, path: Path, x: NodeId)
    requires AgreeBelow(v, store, path)
    ensures AgreeUnder(v, store, path + [x])
  {
    forall a: Address | path + [x] <= a.0 ensures Get(v, a) == Get(store, a) {
      UnderIsBelow(path, x, a.0);
    }
  }

  /** A node that has not run has nothing stored. */
  lemma {:induction false} NotRunFresh(sc: Setting, inst: Instance, path: Path, external: map<Slot, Value>, order: seq<NodeId>, run: Run, x: NodeId)
    requires Runnable(sc.plan, inst, path) && forall id :: id in order ==> id in inst.Ids()
    requires FreshBelow(run.store, path) && x !in order
    ensures FreshUnder(ExecNodes(sc, inst, path, external, order, run).store, path + [x])
  {
    hide ExecNode, FreshUnder, FreshBelow, Runnable, AgreeUnder, OnlyUnder;
    FreshNode(run.store, path, x);
    if order != [] {
      var front, id := order[..|order| - 1], order[|order| - 1];
      NotRunFresh(sc, inst, path, external, front, run, x);
      var before := ExecNodes(sc, inst, path, external, front, run);
      if before.failure.None? {
        NodeFrame(sc, inst, path, external, id, before);
        Apart(before.store, ExecNode(sc, inst, path, external, id, before).store, path, id, x);
        FreshStays(before.store, ExecNode(sc, inst, path, external, id, before).store, path + [x]);
      }
    }
  }

  /** The node order[k] runs after its sources and only once. */
  lemma StepFacts(sc: Setting, inst: Instance, path: Path, order: seq<NodeId>)
    requires Runnable(sc.plan, inst, path) && order <= sc.plan(path, inst.definition.graph) && order != []
    ensures var front, id := order[..|order| - 1], order[|order| - 1];
      && front <= sc.plan(path, inst.definition.graph) && id in inst.Ids() && id !in front
      && SourcesIn(inst, id, front) && (forall d :: d in order ==> d in inst.Ids()) && (forall d :: d in order <==> d in front || d == id)
  {
    var plan := sc.plan(path, inst.definition.graph);
    var k := |order| - 1;
    SourcesEarlier(inst, plan, k);
    assert plan[..k] == order[..k];
    assert forall d :: d in order ==> d in plan;
  }

  lemma GraphMeaningFrom(inst: Instance, path: Path, store: Store, v: Store)
    requires forall d :: d in inst.Ids() ==> Meaning(inst, path, store, v, d)
    requires forall x :: x !in inst.Ids() ==> FreshUnder(store, path + [x])
    ensures GraphMeaning(inst, path, store, v)
  {
    hide FlatOutput;
    forall rel: Path, port | rel != [] ensures MeansAt(inst, path, store, v, rel, port) {
      var x := rel[0];
      if x in inst.Ids() {
        assert Meaning(inst, path, store, v, x);
      } else {
        RelUnder(path, rel, x);
        assert FreshUnder(store, path + [x]);
        var a: Address := (path + rel, port);
        assert Get(store, a) == None;
      }
    }
  }

  lemma InputsAllMean(inst: Instance, path: Path, external: map<Slot, Value>, wires: Wires, store: Store, v: Store, done: seq<NodeId>, id: NodeId)
    requires SourcesIn(inst, id, done) && ExternalThrough(external, wires, v)
    requires forall d :: d in done ==> d in inst.Ids() && Meaning(inst, path, store, v, d)
    ensures InputsMean(inst, path, Wiring(inst.Edges(), external, path), wires, store, v, id)
  {
    hide InputValue, FlatInput;
    forall port ensures InputValue(Wiring(inst.Edges(), external, path), store, id, port) == Through(v, FlatInput(inst, path, wires, id, port)) {
      InputMeans(inst, path, external, wires, store, v, done, id, port);
    }
  }

  /* ---- a successful run solves the flat equations ---- */

  lemma RegisteredSolves(sc: Setting, inst: Instance, path: Path, external: map<Slot, Value>, wires: Wires, n: Node, run: Run, v: Store)
    requires n.Registered? && n.id in inst.Ids() && NodeOf(inst.Nodes(), n.id) == n
    requires run.failure.None? && FreshUnder(run.store, path + [n.id])
    requires InputsMean(inst, path, Wiring(inst.Edges(), external, path), wires, run.store, v, n.id)
    requires var r := RunRegistered(sc, inst, path, external, n, run);
      r.failure.None? && AgreeUnder(v, r.store, path + [n.id])
    ensures var r := RunRegistered(sc, inst, path, external, n, run);
      Meaning(inst, path, r.store, v, n.id) && SolvedUnder(sc.catalog, sc.context, inst, path, wires, v, n.id)
  {
    hide Invoke, Gather, InputsMean, LeafAt, Meaning, SolvedUnder, FreshUnder, FreshBelow, FeedsOf, OutputTypes;
    var w := Wiring(inst.Edges(), external, path);
    var i := sc.catalog.Resolve(n.typeId, n.version).implementation;
    LeafFeeds(sc.catalog, inst, path, w, wires, run.store, v, n, i.inputs);
    var inputs := Gather(w, run.store, n.id, Wants(i.inputs)).values;
    InvokeIs(sc, i, n, path, inst.ParamsOf(n.id), inputs, run);
    var r := Invoke(sc, i, n, path, inst.ParamsOf(n.id), inputs, run);
    forall port ensures Get(r.store, (path + [n.id], port)) == Get(v, (path + [n.id], port)) {
      var a: Address := (path + [n.id], port);
      assert path + [n.id] <= a.0;
      assert Get(v, a) == Get(r.store, a);
    }
    RegisteredMeaning(inst, path, r.store, v, n);
    ComputesIs(i.evaluate(sc.context.Invoked(path + [n.id], inst.ParamsOf(n.id), inputs)).outcome, OutputTypes(i.outputs), path + [n.id], v);
    RegisteredSolved(sc.catalog, sc.context, inst, path, wires, v, n);
  }

  lemma {:induction false} NodeSolves(sc: Setting, inst: Instance, path: Path, external: map<Slot, Value>, wires: Wires, id: NodeId, run: Run, v: Store)
    requires Runnable(sc.plan, inst, path) && id in inst.Ids()
    requires run.failure.None? && FreshUnder(run.store, path + [id])
    requires InputsMean(inst, path, Wiring(inst.Edges(), external, path), wires, run.store, v, id)
    requires var r := ExecNode(sc, inst, path, external, id, run);
      r.failure.None? && AgreeUnder(v, r.store, path + [id])
    ensures var r := ExecNode(sc, inst, path, external, id, run);
      Meaning(inst, path, r.store, v, id) && SolvedUnder(sc.catalog, sc.context, inst, path, wires, v, id)
    decreases inst, 1, 0
  {
    hide RunRegistered, Gather, InputsMean, FlatSolution, Meaning, SolvedUnder, FreshBelow, GraphMeaning, Publish, ExecGraph;
    var n := NodeOf(inst.Nodes(), id);
    if n.Registered? {
      RegisteredSolves(sc, inst, path, external, wires, n, run, v);
    } else {
      var child, here := inst.children[id], path + [id];
      var w := Wiring(inst.Edges(), external, path);
      var exposed := child.definition.exposedInputs;
      PassedOnMeans(inst, path, w, wires, run.store, v, id, exposed);
      var values := Gather(w, run.store, id, ExposedWants(exposed)).values;
      var nested := ExecGraph(sc, child, here, values, run);
      var r := Publish(nested, here, child.definition.exposedOutputs);
      PublishIs(nested, here, child.definition.exposedOutputs);
      PublishFrame(nested, here, child.definition.exposedOutputs);
      FreshInside(run.store, here);
      NestedAgrees(v, nested.store, r.store, here);
      GraphSolves(sc, child, here, values, ChildWires(inst, path, wires, id), run, v);
      GraphWritesBelow(sc, child, here, values, run);
      ComponentMeaning(inst, path, id, nested.store, r.store, v);
      ComponentSolved(sc.catalog, sc.context, inst, path, wires, v, id);
    }
  }

  lemma NestedAgrees(v: Store, nested: Store, after: Store, here: Path)
    requires AgreeUnder(v, after, here)
    requires forall a: Address :: a.0 != here ==> Get(nested, a) == Get(after, a)
    ensures AgreeBelow(v, nested, here)
  {
    forall a: Address | here < a.0 ensures Get(v, a) == Get(nested, a) {
      assert here <= a.0 && a.0 != here;
      assert Get(nested, a) == Get(after, a);
    }
  }

  lemma GraphWritesBelow(sc: Setting, inst: Instance, path: Path, external: map<Slot, Value>, run: Run)
    requires Runnable(sc.plan, inst, path) && FreshUnder(run.store, path)
    ensures forall name :: Get(ExecGraph(sc, inst, path, external, run).store, (path, name)) == None
  {
    hide ExecNodes;
    NodesFrame(sc, inst, path, external, sc.plan(path, inst.definition.graph), run);
    forall name ensures Get(ExecGraph(sc, inst, path, external, run).store, (path, name)) == None {
      var a: Address := (path, name);
      assert Get(run.store, a) == None;
      assert path < a.0 || Get(run.store, a) == Get(ExecGraph(sc, inst, path, external, run).store, a);
    }
  }

  lemma {:induction false} NodesSolve(sc: Setting, inst: Instance, path: Path, external: map<Slot, Value>, wires: Wires, order: seq<NodeId>, run: Run, v: Store)
    requires Runnable(sc.plan, inst, path) && order <= sc.plan(path, inst.definition.graph)
    requires forall id :: id in order ==> id in inst.Ids()
    requires run.failure.None? && FreshBelow(run.store, path) && ExternalThrough(external, wires, v)
    requires ExecNodes(sc, inst, path, external, order, run).failure.None?
    requires forall d :: d in order ==> AgreeUnder(v, ExecNodes(sc, inst, path, external, order, run).store, path + [d])
    ensures forall d :: d in order ==> Meaning(inst, path, ExecNodes(sc, inst, path, external, order, run).store, v, d)
                                       && SolvedUnder(sc.catalog, sc.context, inst, path, wires, v, d)
    decreases inst, 2, |order|
  {
    hide Meaning, SolvedUnder, AgreeUnder, ExecNode, FreshBelow, FreshUnder, ExternalThrough, OnlyUnder, SourcesIn, InputsMean, Runnable;
    if order != [] {
      StepFacts(sc, inst, path, order);
      var front, id := order[..|order| - 1], order[|order| - 1];
      var before := ExecNodes(sc, inst, path, external, front, run);
      var after := ExecNode(sc, inst, path, external, id, before);
      NodeFrame(sc, inst, path, external, id, before);
      forall d | d in front ensures AgreeUnder(before.store, after.store, path + [d]) && AgreeUnder(v, before.store, path + [d]) {
        Apart(before.store, after.store, path, id, d);
        AgreeTrans(v, before.store, after.store, path + [d]);
      }
      NodesSolve(sc, inst, path, external, wires, front, run, v);
      NotRunFresh(sc, inst, path, external, front, run, id);
      InputsAllMean(inst, path, external, wires, before.store, v, front, id);
      NodeSolves(sc, inst, path, external, wires, id, before, v);
      forall d | d in order ensures Meaning(inst, path, after.store, v, d) && SolvedUnder(sc.catalog, sc.context, inst, path, wires, v, d) {
        if d in front {
          MeaningStays(inst, path, before.store, after.store, v, d);
        }
      }
    }
  }

  /** A successful graph execution solves the equations of every leaf inside it, and every address of its subtree holds
      what the solution says about the leaf output behind it. */
  lemma {:induction false} GraphSolves(sc: Setting, inst: Instance, path: Path, external: map<Slot, Value>, wires: Wires, run: Run, v: Store)
    requires Runnable(sc.plan, inst, path)
    requires run.failure.None? && FreshBelow(run.store, path) && ExternalThrough(external, wires, v)
    requires ExecGraph(sc, inst, path, external, run).failure.None?
    requires AgreeBelow(v, ExecGraph(sc, inst, path, external, run).store, path)
    ensures GraphMeaning(inst, path, ExecGraph(sc, inst, path, external, run).store, v)
    ensures FlatSolution(sc.catalog, sc.context, inst, path, wires, v)
    decreases inst, 3, 0
  {
    hide Meaning, SolvedUnder, AgreeUnder, AgreeBelow, ExecNodes, FreshBelow, FreshUnder, ExternalThrough, FlatSolution, GraphMeaning;
    var order := sc.plan(path, inst.definition.graph);
    var r := ExecGraph(sc, inst, path, external, run);
    forall d | d in order ensures AgreeUnder(v, r.store, path + [d]) {
      BelowUnder(v, r.store, path, d);
    }
    NodesSolve(sc, inst, path, external, wires, order, run, v);
    forall x | x !in inst.Ids() ensures FreshUnder(r.store, path + [x]) {
      NotRunFresh(sc, inst, path, external, order, run, x);
    }
    GraphMeaningFrom(inst, path, r.store, v);
    SolvedEverywhere(sc.catalog, sc.context, inst, path, wires, v);
  }

  /* ---- a solution is what any run computes ---- */

  lemma RegisteredFollows(sc: Setting, inst: Instance, path: Path, external: map<Slot, Value>, wires: Wires, n: Node, run: Run, v: Store)
    requires n.Registered? && n.id in inst.Ids() && NodeOf(inst.Nodes(), n.id) == n
    requires run.failure.None? && FreshUnder(run.store, path + [n.id])
    requires InputsMean(inst, path, Wiring(inst.Edges(), external, path), wires, run.store, v, n.id)
    requires SolvedUnder(sc.catalog, sc.context, inst, path, wires, v, n.id) && sc.catalog.Resolve(n.typeId, n.version).Resolved?
    ensures var r := RunRegistered(sc, inst, path, external, n, run);
      r.failure.None? && Meaning(inst, path, r.store, v, n.id)
  {
    hide Invoke, Gather, InputsMean, Meaning, FreshUnder, FreshBelow, FeedsOf, OutputTypes, LeafAt;
    var w := Wiring(inst.Edges(), external, path);
    var i := sc.catalog.Resolve(n.typeId, n.version).implementation;
    LeafFeeds(sc.catalog, inst, path, w, wires, run.store, v, n, i.inputs);
    assert LeafSolved(sc.catalog, sc.context, LeafAt(sc.catalog, inst, path, wires, [n.id]).value, path + [n.id], v);
    var inputs := Gather(w, run.store, n.id, Wants(i.inputs)).values;
    InvokeIs(sc, i, n, path, inst.ParamsOf(n.id), inputs, run);
    var outcome := i.evaluate(sc.context.Invoked(path + [n.id], inst.ParamsOf(n.id), inputs)).outcome;
    ComputesIs(outcome, OutputTypes(i.outputs), path + [n.id], v);
    RegisteredMeaning(inst, path, Invoke(sc, i, n, path, inst.ParamsOf(n.id), inputs, run).store, v, n);
  }

  /** The component case needs the static discipline: it is what makes hand-over and publication succeed. */
  lemma {:induction false} NodeFollows(sc: Setting, inst: Instance, path: Path, external: map<Slot, Value>, wires: Wires, done: seq<NodeId>, id: NodeId, run: Run, v: Store)
    requires WellWired(sc.catalog, inst) && Runnable(sc.plan, inst, path) && ExternalTyped(sc.catalog, inst, external)
    requires id in inst.Ids() && SourcesIn(inst, id, done) && Sound(sc.catalog, run) && run.failure.None?
    requires forall d :: d in done ==> d in inst.Ids() && Delivered(sc.catalog, inst, path, run.store, d)
    requires FreshUnder(run.store, path + [id])
    requires InputsMean(inst, path, Wiring(inst.Edges(), external, path), wires, run.store, v, id)
    requires SolvedUnder(sc.catalog, sc.context, inst, path, wires, v, id)
    ensures var r := ExecNode(sc, inst, path, external, id, run);
      r.failure.None? && Meaning(inst, path, r.store, v, id)
    decreases inst, 1, 0
  {
    hide RunRegistered, Gather, InputsMean, FlatSolution, Meaning, SolvedUnder, FreshBelow, GraphMeaning, Publish, ExecGraph;
    hide Sound, Delivered, ExternalTyped, GraphWired, ComponentReady, InputsTyped;
    var n := NodeOf(inst.Nodes(), id);
    if n.Registered? {
      NodeReady(sc.catalog, inst, n);
      RegisteredFollows(sc, inst, path, external, wires, n, run, v);
    } else {
      ChildReady(sc.catalog, inst, id);
      AllInputsTyped(sc.catalog, inst, path, external, run.store, done, id);
      var child, here := inst.children[id], path + [id];
      var w := Wiring(inst.Edges(), external, path);
      var exposed := child.definition.exposedInputs;
      ComponentInputs(sc.catalog, inst, w, run.store, id);
      PassedOnMeans(inst, path, w, wires, run.store, v, id, exposed);
      var values := Gather(w, run.store, id, ExposedWants(exposed)).values;
      FreshInside(run.store, here);
      ComponentSolved(sc.catalog, sc.context, inst, path, wires, v, id);
      GraphFollows(sc, child, here, values, ChildWires(inst, path, wires, id), run, v);
      var nested := ExecGraph(sc, child, here, values, run);
      GraphSound(sc, child, here, values, run);
      ChildExposures(sc.catalog, inst, id);
      PublishTyped(sc.catalog, child, nested, here, child.definition.exposedOutputs);
      PublishIs(nested, here, child.definition.exposedOutputs);
      PublishFrame(nested, here, child.definition.exposedOutputs);
      GraphWritesBelow(sc, child, here, values, run);
      ComponentMeaning(inst, path, id, nested.store, Publish(nested, here, child.definition.exposedOutputs).store, v);
    }
  }

  lemma {:induction false} NodesFollow(sc: Setting, inst: Instance, path: Path, external: map<Slot, Value>, wires: Wires, order: seq<NodeId>, run: Run, v: Store)
    requires WellWired(sc.catalog, inst) && Runnable(sc.plan, inst, path) && ExternalTyped(sc.catalog, inst, external)
    requires order <= sc.plan(path, inst.definition.graph) && Sound(sc.catalog, run) && run.failure.None?
    requires forall id :: id in order ==> id in inst.Ids()
    requires FreshBelow(run.store, path) && ExternalThrough(external, wires, v)
    requires FlatSolution(sc.catalog, sc.context, inst, path, wires, v)
    ensures var r := ExecNodes(sc, inst, path, external, order, run);
      r.failure.None? && forall d :: d in order ==> Meaning(inst, path, r.store, v, d)
    decreases inst, 2, |order|
  {
    hide Meaning, SolvedUnder, AgreeUnder, ExecNode, FreshBelow, FreshUnder, ExternalThrough, OnlyUnder, SourcesIn, InputsMean, Runnable;
    hide Sound, Delivered, ExternalTyped, WellWired, FlatSolution;
    if order != [] {
      StepFacts(sc, inst, path, order);
      var front, id := order[..|order| - 1], order[|order| - 1];
      NodesFollow(sc, inst, path, external, wires, front, run, v);
      NodesSound(sc, inst, path, external, front, run);
      var before := ExecNodes(sc, inst, path, external, front, run);
      var after := ExecNode(sc, inst, path, external, id, before);
      NotRunFresh(sc, inst, path, external, front, run, id);
      InputsAllMean(inst, path, external, wires, before.store, v, front, id);
      SolvedEverywhere(sc.catalog, sc.context, inst, path, wires, v);
      NodeFollows(sc, inst, path, external, wires, front, id, before, v);
      NodeFrame(sc, inst, path, external, id, before);
      forall d | d in order ensures Meaning(inst, path, after.store, v, d) {
        if d in front {
          Apart(before.store, after.store, path, id, d);
          MeaningStays(inst, path, before.store, after.store, v, d);
        }
      }
    }
  }

  /** On a well-wired hierarchy, if the flat equations have a solution then execution in any topological order succeeds
      and stores exactly what the solution says. */
  lemma {:induction false} GraphFollows(sc: Setting, inst: Instance, path: Path, external: map<Slot, Value>, wires: Wires, run: Run, v: Store)
    requires WellWired(sc.catalog, inst) && Runnable(sc.plan, inst, path) && ExternalTyped(sc.catalog, inst, external)
    requires Sound(sc.catalog, run) && run.failure.None? && FreshBelow(run.store, path) && ExternalThrough(external, wires, v)
    requires FlatSolution(sc.catalog, sc.context, inst, path, wires, v)
    ensures var r := ExecGraph(sc, inst, path, external, run);
      r.failure.None? && GraphMeaning(inst, path, r.store, v)
    decreases inst, 3, 0
  {
    hide Meaning, ExecNodes, FreshBelow, FreshUnder, ExternalThrough, FlatSolution, GraphMeaning, Sound, ExternalTyped, WellWired;
    var order := sc.plan(path, inst.definition.graph);
    NodesFollow(sc, inst, path, external, wires, order, run, v);
    var r := ExecGraph(sc, inst, path, external, run);
    forall x | x !in inst.Ids() ensures FreshUnder(r.store, path + [x]) {
      NotRunFresh(sc, inst, path, external, order, run, x);
    }
    GraphMeaningFrom(inst, path, r.store, v);
  }

  /* ---- whole documents ---- */

  /** A document with its components resolved: nothing is exposed. */
  ghost predicate TopLevel(inst: Instance) {
    inst.definition.exposedInputs == [] && inst.definition.exposedOutputs == []
  }

  ghost function RunOf(sc: Setting, inst: Instance): Run
    requires Runnable(sc.plan, inst, [])
  {
    ExecGraph(sc, inst, [], map[], sc.context.Start())
  }

  ghost predicate Equations(cat: Catalog, context: Context, inst: Instance, v: Store) {
    FlatSolution(cat, context, inst, [], map[], v)
  }

  lemma StartFacts(sc: Setting, inst: Instance, v: Store)
    ensures var start := sc.context.Start();
      Sound(sc.catalog, start) && start.failure.None? && FreshBelow(start.store, []) && FreshUnder(start.store, [])
    ensures ExternalThrough(map[], map[], v)
    ensures TopLevel(inst) ==> ExternalTyped(sc.catalog, inst, map[])
  {
  }

  /** Type soundness and progress for a whole document: the only failures left are a node raising or breaking its own
      output contract, and every delivery is well typed. */
  lemma RunIsSound(sc: Setting, inst: Instance)
    requires WellWired(sc.catalog, inst) && TopLevel(inst) && Runnable(sc.plan, inst, [])
    ensures Sound(sc.catalog, RunOf(sc, inst))
    ensures RunOf(sc, inst).failure.None? ==> forall id :: id in inst.Ids() ==> Delivered(sc.catalog, inst, [], RunOf(sc, inst).store, id)
  {
    hide Sound, Delivered, ExecGraph, ExternalTyped;
    StartFacts(sc, inst, map[]);
    GraphSound(sc, inst, [], map[], sc.context.Start());
  }

  /** What a successful document run has stored is a solution of the flat equations. */
  lemma RunSolvesEquations(sc: Setting, inst: Instance)
    requires Runnable(sc.plan, inst, []) && RunOf(sc, inst).failure.None?
    ensures Equations(sc.catalog, sc.context, inst, RunOf(sc, inst).store)
    ensures GraphMeaning(inst, [], RunOf(sc, inst).store, RunOf(sc, inst).store)
  {
    hide ExecGraph, FlatSolution, GraphMeaning, Runnable;
    StartFacts(sc, inst, RunOf(sc, inst).store);
    GraphSolves(sc, inst, [], map[], map[], sc.context.Start(), RunOf(sc, inst).store);
  }

  /** Any solution is what every topological order computes. */
  lemma SolutionIsComputed(sc: Setting, inst: Instance, v: Store)
    requires WellWired(sc.catalog, inst) && TopLevel(inst) && Runnable(sc.plan, inst, [])
    requires Equations(sc.catalog, sc.context, inst, v)
    ensures RunOf(sc, inst).failure.None? && GraphMeaning(inst, [], RunOf(sc, inst).store, v)
  {
    hide ExecGraph, FlatSolution, GraphMeaning, Sound, ExternalTyped;
    StartFacts(sc, inst, v);
    GraphFollows(sc, inst, [], map[], map[], sc.context.Start(), v);
  }

  /** The flat equations have at most one solution on the leaves. */
  lemma SolutionsAgree(sc: Setting, inst: Instance, v: Store, v': Store, rel: Path, port: PortName)
    requires WellWired(sc.catalog, inst) && TopLevel(inst) && Runnable(sc.plan, inst, [])
    requires Equations(sc.catalog, sc.context, inst, v) && Equations(sc.catalog, sc.context, inst, v')
    requires LeafAt(sc.catalog, inst, [], map[], rel).Some?
    ensures Get(v, (rel, port)) == Get(v', (rel, port))
  {
    hide RunOf, FlatSolution, Runnable, WellWired, FlatAt, LeafAt;
    SolutionIsComputed(sc, inst, v);
    SolutionIsComputed(sc, inst, v');
    LeafIsItself(sc.catalog, inst, [], map[], rel, port);
    assert [] + rel == rel;
    var s := RunOf(sc, inst).store;
    assert MeansAt(inst, [], s, v, rel, port) && MeansAt(inst, [], s, v', rel, port);
  }

  lemma TopKeysNonempty(sc: Setting, inst: Instance)
    requires Runnable(sc.plan, inst, [])
    ensures forall port :: Get(RunOf(sc, inst).store, ([], port)) == None
  {
    hide ExecGraph;
    StartFacts(sc, inst, map[]);
    GraphWritesBelow(sc, inst, [], map[], sc.context.Start());
  }

  /** The evaluation order does not matter: if one topological order succeeds, every other one does, with the same store. */
  lemma OrderDoesNotMatter(cat: Catalog, context: Context, plan: Planner, plan': Planner, inst: Instance)
    requires WellWired(cat, inst) && TopLevel(inst) && Runnable(plan, inst, []) && Runnable(plan', inst, [])
    requires RunOf(Setting(cat, context, plan), inst).failure.None?
    ensures RunOf(Setting(cat, context, plan'), inst).failure.None?
    ensures RunOf(Setting(cat, context, plan'), inst).store == RunOf(Setting(cat, context, plan), inst).store
  {
    hide RunOf, FlatSolution, Runnable, WellWired, FlatAt;
    var sc, sc' := Setting(cat, context, plan), Setting(cat, context, plan');
    var s, s' := RunOf(sc, inst).store, RunOf(sc', inst).store;
    RunSolvesEquations(sc, inst);
    SolutionIsComputed(sc', inst, s);
    TopKeysNonempty(sc, inst);
    TopKeysNonempty(sc', inst);
    forall a: Address ensures Get(s, a) == Get(s', a) {
      var (rel, port) := a;
      if rel != [] {
        assert [] + rel == rel;
        assert MeansAt(inst, [], s, s, rel, port) && MeansAt(inst, [], s', s, rel, port);
      }
    }
    SameMaps(s, s');
  }
}
