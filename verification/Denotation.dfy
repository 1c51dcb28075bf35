/** Execution against the flat equations: a successful run solves them, and a solution is what any run computes. */
module Denotation {
  import opened Collections
  import opened Cycles
  import opened Diagnostics
  import opened Documents
  import opened Evaluator
  import opened Flattening
  import opened Frames
  import opened Market
  import opened Planning
  import opened Typing

  ghost predicate FreshUnder(store: Store, prefix: Path) {
    forall a: Address :: prefix <= a.0 ==> Get(store, a) == None
  }

  ghost predicate FreshBelow(store: Store, prefix: Path) {
    forall a: Address :: prefix < a.0 ==> Get(store, a) == None
  }

  ghost predicate AgreeUnder(v: Store, store: Store, prefix: Path) {
    forall a: Address :: prefix <= a.0 ==> Get(v, a) == Get(store, a)
  }

  lemma FreshNode(store: Store, path: Path, x: NodeId)
    requires FreshBelow(store, path)
    ensures FreshUnder(store, path + [x])
  {
    forall a: Address | path + [x] <= a.0 ensures Get(store, a) == None {
      UnderIsBelow(path, x, a.0);
    }
  }

  lemma FreshInside(store: Store, here: Path)
    requires FreshUnder(store, here)
    ensures FreshBelow(store, here)
  {
  }

  /** What another node writes does not touch this node's subtree. */
  lemma Apart(s: Store, t: Store, path: Path, x: NodeId, y: NodeId)
    requires OnlyUnder(s, t, path + [x]) && x != y
    ensures AgreeUnder(s, t, path + [y])
  {
    forall a: Address | path + [y] <= a.0 ensures Get(s, a) == Get(t, a) {
      UnderIsBelow(path, y, a.0);
      if path + [x] <= a.0 { UnderIsBelow(path, x, a.0); }
    }
  }

  lemma AgreeTrans(v: Store, s: Store, t: Store, prefix: Path)
    requires AgreeUnder(s, t, prefix) && AgreeUnder(v, t, prefix)
    ensures AgreeUnder(v, s, prefix)
  {
    forall a: Address | prefix <= a.0 ensures Get(v, a) == Get(s, a) {
      assert Get(s, a) == Get(t, a);
    }
  }

  lemma FreshStays(s: Store, t: Store, prefix: Path)
    requires FreshUnder(s, prefix) && AgreeUnder(s, t, prefix)
    ensures FreshUnder(t, prefix)
  {
    forall a: Address | prefix <= a.0 ensures Get(t, a) == None {
      assert Get(s, a) == Get(t, a);
    }
  }

  lemma RelUnder(path: Path, rel: Path, id: NodeId)
    requires rel != [] && rel[0] == id
    ensures path + [id] <= path + rel
    ensures path + rel == (path + [id]) + rel[1..]
  {
    assert rel == [id] + rel[1..];
  }

  lemma MeaningStays(inst: Instance, path: Path, s: Store, t: Store, v: Store, id: NodeId)
    requires Meaning(inst, path, s, v, id) && AgreeUnder(s, t, path + [id])
    ensures Meaning(inst, path, t, v, id)
  {
    hide FlatAt;
    forall rel: Path, port | rel != [] && rel[0] == id ensures MeansAt(inst, path, t, v, rel, port) {
      RelUnder(path, rel, id);
      assert MeansAt(inst, path, s, v, rel, port);
      assert Get(s, (path + rel, port)) == Get(t, (path + rel, port));
    }
  }

  /* ---- inputs ---- */

  /** What a node reads is what V says about the leaf behind that input. */
  lemma InputMeans(inst: Instance, path: Path, external: map<Slot, Value>, wires: Wires, store: Store, v: Store, done: seq<NodeId>,
                   id: NodeId, port: PortName)
    requires SourcesIn(inst, id, done) && ExternalThrough(external, wires, v)
    requires forall d :: d in done ==> d in inst.Ids() && Meaning(inst, path, store, v, d)
    ensures InputValue(Wiring(inst.Edges(), external, path), store, id, port) == Through(v, FlatInput(inst, path, wires, id, port))
  {
    hide FlatOutput;
    var source := SourceOf(inst.Edges(), id, port);
    if source.Some? {
      var src := source.value.0;
      assert src in done by {
        var e := Edge(source.value.0, source.value.1, id, port);
        assert e in inst.Edges();
      }
      assert MeansAt(inst, path, store, v, [src], source.value.1);
      assert FlatAt(inst, path, [src], source.value.1) == FlatOutput(inst, path, src, source.value.1);
    } else {
      var slot: Slot := (id, port);
      assert Get(external, slot) == Through(v, Get(wires, slot));
    }
  }

  /** Gather hands over exactly what V says. */
  ghost predicate InputsMean(inst: Instance, path: Path, w: Wiring, wires: Wires, store: Store, v: Store, id: NodeId) {
    forall port :: InputValue(w, store, id, port) == Through(v, FlatInput(inst, path, wires, id, port))
  }

  /** The inputs assembled for a registered node are the feeds of its leaf. */
  lemma LeafFeeds(cat: Catalog, inst: Instance, path: Path, w: Wiring, wires: Wires, store: Store, v: Store, n: Node, ports: seq<InputPort>)
    requires n.Registered? && InputsMean(inst, path, w, wires, store, v, n.id) && n.id in inst.Ids() && NodeOf(inst.Nodes(), n.id) == n
    requires cat.Resolve(n.typeId, n.version).Resolved? && ports == cat.Resolve(n.typeId, n.version).implementation.inputs
    ensures LeafAt(cat, inst, path, wires, [n.id]).Some?
    ensures var leaf := LeafAt(cat, inst, path, wires, [n.id]).value;
      && leaf.typeId == n.typeId && leaf.version == n.version && leaf.params == inst.ParamsOf(n.id)
      && var gathered := Gather(w, store, n.id, Wants(ports));
      gathered.Inputs? ==> gathered.values == FeedsOf(leaf, v)
    ensures var leaf := LeafAt(cat, inst, path, wires, [n.id]).value;
      Gather(w, store, n.id, Wants(ports)).Inputs? <==> forall p :: p in ports && p.required ==> p.name in FeedsOf(leaf, v)
  {
    hide InputValue, Gather, FlatInput, InputTypes, FeedsOf;
    var leaf := LeafAt(cat, inst, path, wires, [n.id]).value;
    FedAre(cat, inst, path, w, wires, store, v, n, ports, leaf);
    GatheredIff(w, store, n.id, ports, FeedsOf(leaf, v));
    GatheredAre(w, store, n.id, ports, FeedsOf(leaf, v));
  }

  /** Every declared input reads what the leaf is fed. */
  ghost predicate ReadsAs(w: Wiring, store: Store, node: NodeId, ports: seq<InputPort>, fed: map<PortName, Value>) {
    && (forall k :: 0 <= k < |ports| ==> InputValue(w, store, node, ports[k].name) == Get(fed, ports[k].name))
    && (forall name :: name in fed ==> exists k :: 0 <= k < |ports| && ports[k].name == name)
  }

  lemma FedAre(cat: Catalog, inst: Instance, path: Path, w: Wiring, wires: Wires, store: Store, v: Store, n: Node, ports: seq<InputPort>, leaf: Leaf)
    requires n.Registered? && InputsMean(inst, path, w, wires, store, v, n.id) && n.id in inst.Ids() && NodeOf(inst.Nodes(), n.id) == n
    requires cat.Resolve(n.typeId, n.version).Resolved? && ports == cat.Resolve(n.typeId, n.version).implementation.inputs
    requires LeafAt(cat, inst, path, wires, [n.id]) == Some(leaf)
    ensures ReadsAs(w, store, n.id, ports, FeedsOf(leaf, v))
  {
    hide InputValue, FlatInput, InputTypes;
    InputTypeNames(ports);
    forall k | 0 <= k < |ports| ensures InputValue(w, store, n.id, ports[k].name) == Get(FeedsOf(leaf, v), ports[k].name) {
      assert ports[k].name in InputTypes(ports);
    }
  }

  lemma GatheredIff(w: Wiring, store: Store, node: NodeId, ports: seq<InputPort>, fed: map<PortName, Value>)
    requires ReadsAs(w, store, node, ports, fed)
    ensures Gather(w, store, node, Wants(ports)).Inputs? <==> forall p :: p in ports && p.required ==> p.name in fed
  {
    hide InputValue, Gather;
    var wants := Wants(ports);
    GatherIs(w, store, node, wants);
    forall k | 0 <= k < |ports| ensures Available(w, store, node, wants[k]) <==> (ports[k].required ==> ports[k].name in fed) {
    }
    if forall p :: p in ports && p.required ==> p.name in fed {
      forall k | 0 <= k < |ports| ensures Available(w, store, node, wants[k]) {
        assert ports[k] in ports;
      }
    }
    if Gather(w, store, node, wants).Inputs? {
      forall p | p in ports && p.required ensures p.name in fed {
        var k :| 0 <= k < |ports| && ports[k] == p;
        assert Available(w, store, node, wants[k]);
      }
    }
  }

  lemma GatheredAre(w: Wiring, store: Store, node: NodeId, ports: seq<InputPort>, fed: map<PortName, Value>)
    requires ReadsAs(w, store, node, ports, fed)
    ensures var gathered := Gather(w, store, node, Wants(ports)); gathered.Inputs? ==> gathered.values == fed
  {
    hide InputValue, Gather;
    var wants := Wants(ports);
    GatherIs(w, store, node, wants);
    var gathered := Gather(w, store, node, wants);
    if gathered.Inputs? {
      forall name | name in fed ensures name in gathered.values {
        var k :| 0 <= k < |ports| && ports[k].name == name;
        assert InputValue(w, store, node, wants[k].port).Some?;
        assert wants[k].slot in gathered.values;
      }
      forall name ensures Get(gathered.values, name) == Get(fed, name) {
        if name in gathered.values {
          assert Supplies(w, store, node, wants, name, gathered.values[name]);
          var k :| 0 <= k < |wants| && wants[k].slot == name && InputValue(w, store, node, wants[k].port) == Some(gathered.values[name]);
        }
      }
      SameMaps(gathered.values, fed);
    }
  }

  lemma {:induction false} InputTypeNames(ports: seq<InputPort>)
    ensures forall name :: name in InputTypes(ports) <==> exists k :: 0 <= k < |ports| && ports[k].name == name
  {
    if ports != [] {
      var n := |ports| - 1;
      var front := ports[..n];
      InputTypeNames(front);
      forall name ensures name in InputTypes(ports) <==> exists k :: 0 <= k < |ports| && ports[k].name == name {
        if name in InputTypes(front) {
          var k :| 0 <= k < |front| && front[k].name == name;
          assert ports[k].name == name;
        }
        if exists k :: 0 <= k < |ports| && ports[k].name == name {
          var k :| 0 <= k < |ports| && ports[k].name == name;
          if k < n { assert front[k].name == name; }
        }
      }
    }
  }

  /** What a component hands to its graph is what V says through the wires it passes on. */
  lemma {:induction false} PassedOnMeans(inst: Instance, path: Path, w: Wiring, wires: Wires, store: Store, v: Store, id: NodeId, exposed: seq<ExposedPort>)
    requires InputsMean(inst, path, w, wires, store, v, id)
    requires Gather(w, store, id, ExposedWants(exposed)).Inputs?
    ensures ExternalThrough(Gather(w, store, id, ExposedWants(exposed)).values, PassedOn(inst, path, wires, id, exposed), v)
  {
    hide InputValue, FlatInput;
    if exposed != [] {
      var n := |exposed| - 1;
      var front, e := exposed[..n], exposed[n];
      assert ExposedWants(exposed)[..n] == ExposedWants(front);
      PassedOnMeans(inst, path, w, wires, store, v, id, front);
      var before := Gather(w, store, id, ExposedWants(front)).values;
      var source := FlatInput(inst, path, wires, id, e.name);
      assert InputValue(w, store, id, e.name) == Through(v, source);
      var after, wiresAfter := Gather(w, store, id, ExposedWants(exposed)).values, PassedOn(inst, path, wires, id, exposed);
      forall slot: Slot ensures Get(after, slot) == Through(v, Get(wiresAfter, slot)) {
        assert Get(before, slot) == Through(v, Get(PassedOn(inst, path, wires, id, front), slot));
      }
    }
  }

  /* ---- outputs ---- */

  /** The runtime value a node produced under a name. */
  function ProducedAt(ports: map<PortName, Produced>, name: PortName): Option<Value> {
    if name in ports && ports[name].Runtime? then Some(ports[name].value) else None
  }

  ghost predicate Written(before: Store, after: Store, here: Path, ports: map<PortName, Produced>, names: seq<PortName>) {
    forall a: Address :: Get(after, a) == if a.0 == here && a.1 in names then ProducedAt(ports, a.1) else Get(before, a)
  }

  /** All outputs are stored exactly when each is storable. */
  lemma {:induction false} WriteOutputsIs(run: Run, here: Path, declared: map<PortName, PortType>, ports: map<PortName, Produced>, names: seq<PortName>)
    requires ports.Keys == declared.Keys && forall n :: n in names ==> n in declared
    requires run.failure.None?
    ensures var r := WriteOutputs(run, here, declared, ports, names);
      r.failure.None? <==> forall n :: n in names ==> Storable(ports[n], declared[n])
    ensures var r := WriteOutputs(run, here, declared, ports, names);
      r.failure.None? ==> Written(run.store, r.store, here, ports, names)
  {
    if names != [] {
      var k := |names| - 1;
      WriteOutputsIs(run, here, declared, ports, names[..k]);
      assert forall n :: n in names <==> n in names[..k] || n == names[k];
    }
  }

  /** The outcome meets the declared outputs. */
  ghost predicate Meets(outcome: NodeOutcome, declared: map<PortName, PortType>) {
    outcome.Outputs? && outcome.ports.Keys == declared.Keys && forall name :: name in declared ==> Storable(outcome.ports[name], declared[name])
  }

  ghost predicate StoresOutcome(store: Store, here: Path, outcome: NodeOutcome, declared: map<PortName, PortType>) {
    outcome.Outputs? && forall name :: Get(store, (here, name)) == if name in declared then ProducedAt(outcome.ports, name) else None
  }

  /** Invoking succeeds exactly when the outcome meets its contract, and then stores exactly the outputs. */
  lemma InvokeIs(sc: Setting, implementation: Implementation, n: Node, path: Path, params: Params, inputs: map<PortName, Value>, run: Run)
    requires n.Registered? && run.failure.None? && FreshUnder(run.store, path + [n.id])
    ensures var r := Invoke(sc, implementation, n, path, params, inputs, run);
      var outcome := implementation.evaluate(sc.context.Invoked(path + [n.id], params, inputs)).outcome;
      var declared := OutputTypes(implementation.outputs);
      && (r.failure.None? <==> Meets(outcome, declared))
      && (r.failure.None? ==> StoresOutcome(r.store, path + [n.id], outcome, declared) && FreshBelow(r.store, path + [n.id]))
  {
    hide WriteOutputs, OutputTypes, Storable, FreshBelow, FreshUnder, Written;
    var here := path + [n.id];
    var result := implementation.evaluate(sc.context.Invoked(path + [n.id], params, inputs));
    var called := Called(sc, n, path, params, inputs, result, run);
    var declared := OutputTypes(implementation.outputs);
    if result.outcome.Outputs? && result.outcome.ports.Keys == declared.Keys {
      var ports, names := result.outcome.ports, Sorted(declared.Keys);
      WriteOutputsIs(called, here, declared, ports, names);
      var r := WriteOutputs(called, here, declared, ports, names);
      if r.failure.None? {
        StoredExactly(run.store, r.store, here, ports, names);
      }
    }
  }

  lemma StoredExactly(before: Store, after: Store, here: Path, ports: map<PortName, Produced>, names: seq<PortName>)
    requires Written(before, after, here, ports, names) && FreshUnder(before, here)
    ensures forall name :: Get(after, (here, name)) == if name in names then ProducedAt(ports, name) else None
    ensures FreshBelow(after, here)
  {
    forall name ensures Get(after, (here, name)) == if name in names then ProducedAt(ports, name) else None {
      var a: Address := (here, name);
      assert here <= a.0;
      assert Get(before, a) == None;
      assert Get(after, a) == if a.0 == here && a.1 in names then ProducedAt(ports, a.1) else Get(before, a);
    }
    forall a: Address | here < a.0 ensures Get(after, a) == None {
      assert here <= a.0;
      assert Get(before, a) == None;
      assert a.0 != here;
    }
  }

  /** A store solves a leaf's equation exactly when it holds what the contract-meeting outcome produced. */
  lemma ComputesIs(outcome: NodeOutcome, declared: map<PortName, PortType>, q: Path, v: Store)
    ensures Computes(outcome, declared, q, v) <==> Meets(outcome, declared) && StoresOutcome(v, q, outcome, declared)
  {
    if outcome.Outputs? && outcome.ports.Keys == declared.Keys && forall name :: name in declared ==> Storable(outcome.ports[name], declared[name]) {
      assert forall name :: name in declared ==> ProducedAt(outcome.ports, name) == Some(outcome.ports[name].value);
    }
  }

  /** A published graph: each exposed name carries what the last exposure of that name maps to. */
  lemma {:induction false} PublishIs(run: Run, here: Path, exposed: seq<ExposedPort>)
    requires run.failure.None?
    ensures var r := Publish(run, here, exposed);
      r.failure.Some? ==> r.failure.value.code == MissingRuntimeInput
    ensures var r := Publish(run, here, exposed);
      r.failure.None? ==> forall name :: PublishedAt(run.store, r.store, here, exposed, name)
  {
    if exposed != [] {
      var n := |exposed| - 1;
      var front, e := exposed[..n], exposed[n];
      PublishIs(run, here, front);
      PublishFrame(run, here, front);
      var before := Publish(run, here, front);
      var source: Address := (here + [e.node], e.port);
      assert source.0 != here;
      assert Get(before.store, source) == Get(run.store, source);
      var r := Publish(run, here, exposed);
      if r.failure.None? {
        forall name ensures PublishedAt(run.store, r.store, here, exposed, name) {
          assert PublishedAt(run.store, before.store, here, front, name);
        }
      }
    }
  }

  predicate PublishedAt(before: Store, after: Store, here: Path, exposed: seq<ExposedPort>, name: PortName) {
    match ExposedBy(exposed, name)
    case Some(e) => Get(after, (here, name)) == Get(before, (here + [e.node], e.port)) && Get(after, (here, name)).Some?
    case None => Get(after, (here, name)) == Get(before, (here, name))
  }

  /* ---- one node ---- */

  lemma RegisteredMeaning(inst: Instance, path: Path, store: Store, v: Store, n: Node)
    requires n.Registered? && n.id in inst.Ids() && NodeOf(inst.Nodes(), n.id) == n
    requires FreshBelow(store, path + [n.id])
    requires forall port :: Get(store, (path + [n.id], port)) == Get(v, (path + [n.id], port))
    ensures Meaning(inst, path, store, v, n.id)
  {
    var here := path + [n.id];
    forall rel: Path, port | rel != [] && rel[0] == n.id ensures MeansAt(inst, path, store, v, rel, port) {
      RelUnder(path, rel, n.id);
      if |rel| == 1 {
        assert rel == [n.id];
      } else {
        assert here < path + rel;
        var a: Address := (path + rel, port);
        assert Get(store, a) == None;
      }
    }
  }

  lemma RegisteredSolved(cat: Catalog, context: Context, inst: Instance, path: Path, wires: Wires, v: Store, n: Node)
    requires n.Registered? && n.id in inst.Ids() && NodeOf(inst.Nodes(), n.id) == n
    requires LeafAt(cat, inst, path, wires, [n.id]).Some?
    requires LeafSolved(cat, context, LeafAt(cat, inst, path, wires, [n.id]).value, path + [n.id], v)
    ensures SolvedUnder(cat, context, inst, path, wires, v, n.id)
  {
    hide LeafSolved, FlatInput, InputNames;
    forall rel | LeafAt(cat, inst, path, wires, rel).Some? && rel[0] == n.id
      ensures LeafSolved(cat, context, LeafAt(cat, inst, path, wires, rel).value, path + rel, v)
    {
      assert rel == [n.id];
    }
  }

  /** Every node of the graph means what V says. */
  ghost predicate GraphMeaning(inst: Instance, path: Path, store: Store, v: Store) {
    forall rel: Path, port :: rel != [] ==> MeansAt(inst, path, store, v, rel, port)
  }

  /** A finished component means what V says once its graph does. */
  lemma ComponentMeaning(inst: Instance, path: Path, id: NodeId, before: Store, after: Store, v: Store)
    requires id in ComponentIds(inst) && id in inst.children
    requires GraphMeaning(inst.children[id], path + [id], before, v)
    requires forall name :: PublishedAt(before, after, path + [id], inst.children[id].definition.exposedOutputs, name)
    requires forall a: Address :: a.0 != path + [id] ==> Get(before, a) == Get(after, a)
    requires forall name :: Get(before, (path + [id], name)) == None
    ensures Meaning(inst, path, after, v, id)
  {
    var child, here := inst.children[id], path + [id];
    forall rel: Path, port | rel != [] && rel[0] == id ensures MeansAt(inst, path, after, v, rel, port) {
      hide FlatOutput;
      RelUnder(path, rel, id);
      if |rel| == 1 {
        assert rel == [id];
        PublishedMeans(inst, path, id, before, after, v, port);
      } else {
        assert MeansAt(child, here, before, v, rel[1..], port);
        var a: Address := (path + rel, port);
        assert a.0 != here;
        assert Get(before, a) == Get(after, a);
      }
    }
  }

  lemma PublishedMeans(inst: Instance, path: Path, id: NodeId, before: Store, after: Store, v: Store, port: PortName)
    requires id in ComponentIds(inst) && id in inst.children
    requires GraphMeaning(inst.children[id], path + [id], before, v)
    requires PublishedAt(before, after, path + [id], inst.children[id].definition.exposedOutputs, port)
    requires Get(before, (path + [id], port)) == None
    ensures Get(after, (path + [id], port)) == Through(v, FlatOutput(inst, path, id, port))
  {
    var child, here := inst.children[id], path + [id];
    var e := ExposedBy(child.definition.exposedOutputs, port);
    if e.Some? {
      assert MeansAt(child, here, before, v, [e.value.node], e.value.port);
    }
  }

  lemma ComponentSolved(cat: Catalog, context: Context, inst: Instance, path: Path, wires: Wires, v: Store, id: NodeId)
    requires id in ComponentIds(inst) && id in inst.children
    ensures SolvedUnder(cat, context, inst, path, wires, v, id)
      <==> FlatSolution(cat, context, inst.children[id], path + [id], ChildWires(inst, path, wires, id), v)
  {
    hide LeafSolved, FlatInput, InputNames, PassedOn;
    var child, here, inner := inst.children[id], path + [id], ChildWires(inst, path, wires, id);
    if FlatSolution(cat, context, child, here, inner, v) {
      forall rel | LeafAt(cat, inst, path, wires, rel).Some? && rel[0] == id
        ensures LeafSolved(cat, context, LeafAt(cat, inst, path, wires, rel).value, path + rel, v)
      {
        RelUnder(path, rel, id);
        assert LeafAt(cat, child, here, inner, rel[1..]) == LeafAt(cat, inst, path, wires, rel);
      }
    }
    if SolvedUnder(cat, context, inst, path, wires, v, id) {
      forall rel | LeafAt(cat, child, here, inner, rel).Some?
        ensures LeafSolved(cat, context, LeafAt(cat, child, here, inner, rel).value, here + rel, v)
      {
        var whole := [id] + rel;
        RelUnder(path, whole, id);
        assert whole[1..] == rel;
        assert LeafAt(cat, inst, path, wires, whole) == LeafAt(cat, child, here, inner, rel);
      }
    }
  }

  lemma SolvedEverywhere(cat: Catalog, context: Context, inst: Instance, path: Path, wires: Wires, v: Store)
    ensures FlatSolution(cat, context, inst, path, wires, v) <==> forall id :: id in inst.Ids() ==> SolvedUnder(cat, context, inst, path, wires, v, id)
  {
    hide LeafSolved, FlatInput, InputNames, PassedOn;
    if forall id :: id in inst.Ids() ==> SolvedUnder(cat, context, inst, path, wires, v, id) {
      forall rel | LeafAt(cat, inst, path, wires, rel).Some?
        ensures LeafSolved(cat, context, LeafAt(cat, inst, path, wires, rel).value, path + rel, v)
      {
        assert SolvedUnder(cat, context, inst, path, wires, v, rel[0]);
      }
    }
  }
}
