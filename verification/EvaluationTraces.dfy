/** What an evaluation tells: its trace, call by call, and which fault of which node ended it:
    quantize/evaluator/evaluate.py. */
module EvaluationTraces {
  import opened Collections
  import opened Compositionality
  import opened Diagnostics
  import opened Documents
  import opened Execution
  import opened Evaluator
  import opened Frames
  import opened Invocations
  import opened Closure
  import opened Planning
  import opened Portfolio
  import opened Preflight
  import opened SemanticCodes
  import opened StrategyEvaluation
  import opened Typing

  /** What the invoked node is shown: its own path, parameters and inputs, the view, and what the memo held under its path when
      the evaluation started. */
  function Shown(context: Context, c: Invocation): NodeInvocation {
    NodeInvocation(c.path, c.params, c.inputs, context.view,
                   if context.memo.None? then None else if c.path in context.memo.value then Some(context.memo.value[c.path]) else Some(map[]))
  }

  /** The result of the invoked node, if its type resolves. */
  ghost function Returned(sc: Setting, c: Invocation): Option<NodeResult> {
    match sc.catalog.Resolve(c.typeId, c.version)
    case Resolved(i) => Some(i.evaluate(Shown(sc.context, c)))
    case _ => None
  }

  /** What the invoked node emitted, located at its own component path and id. */
  ghost function Told(sc: Setting, c: Invocation): seq<NodeEvent> {
    var r := Returned(sc, c);
    if r.None? || c.path == [] then []
    else
      var n := |c.path| - 1;
      seq(|r.value.emitted|, i requires 0 <= i < |r.value.emitted| => NodeEvent(c.path[..n], c.path[n], r.value.emitted[i]))
  }

  ghost function AllTold(sc: Setting, calls: seq<Invocation>): seq<NodeEvent> {
    if calls == [] then [] else Told(sc, calls[0]) + AllTold(sc, calls[1..])
  }

  lemma {:induction false} ToldSnoc(sc: Setting, calls: seq<Invocation>, c: Invocation)
    ensures AllTold(sc, calls + [c]) == AllTold(sc, calls) + Told(sc, c)
  {
    hide Told;
    if calls == [] {
      assert calls + [c] == [c];
      assert [c][1..] == [];
    } else {
      assert (calls + [c])[1..] == calls[1..] + [c];
      ToldSnoc(sc, calls[1..], c);
    }
  }

  /** Which fault the diagnostic names: the node raised, or its outputs are not the declared ones, or the first output, in name
      order, that is no value of its declared type. */
  ghost predicate Names(d: Diagnostic, c: Invocation, outcome: NodeOutcome, declared: map<PortName, PortType>) {
    d.path == c.path
    && match outcome
       case Raised => d.code == NodeExecutionFailed && d.subject == c.typeId
       case Outputs(ports) =>
         if ports.Keys != declared.Keys then d.code == WrongOutputPorts && d.subject == c.typeId
         else d.code == WrongOutputType && d.subject in declared && !Storable(ports[d.subject], declared[d.subject])
              && forall name :: name in declared && name < d.subject ==> Storable(ports[name], declared[name])
  }

  /** A node fault is the fault of the last invocation. */
  ghost predicate EndedBy(sc: Setting, run: Run) {
    run.failure.Some? && NodeFault(run.failure.value) ==>
      run.calls != []
      && var c := run.calls[|run.calls| - 1];
      sc.catalog.Resolve(c.typeId, c.version).Resolved?
      && var i := sc.catalog.Resolve(c.typeId, c.version).implementation;
      Names(run.failure.value, c, i.evaluate(Shown(sc.context, c)).outcome, OutputTypes(i.outputs))
  }

  /** The trace is what the invoked nodes told, and a failure is the last one's. */
  ghost predicate Telling(sc: Setting, run: Run) {
    run.trace == AllTold(sc, run.calls) && EndedBy(sc, run)
  }

  lemma {:induction false} WriteFails(run: Run, here: Path, declared: map<PortName, PortType>, ports: map<PortName, Produced>, names: seq<PortName>)
    requires ports.Keys == declared.Keys && (forall n :: n in names ==> n in declared) && run.failure.None? && Ascending(names)
    ensures var r := WriteOutputs(run, here, declared, ports, names);
      && r.trace == run.trace && r.calls == run.calls
      && (r.failure.Some? ==>
            var d := r.failure.value;
            d.code == WrongOutputType && d.path == here && d.subject in names && !Storable(ports[d.subject], declared[d.subject])
            && forall name :: name in names && name < d.subject ==> Storable(ports[name], declared[name]))
      && (r.failure.None? ==> forall name :: name in names ==> Storable(ports[name], declared[name]))
  {
    hide Storable;
    if names != [] {
      var front, last := names[..|names| - 1], names[|names| - 1];
      WriteFails(run, here, declared, ports, front);
      assert forall x :: x in names <==> x in front || x == last;
      assert forall x :: x in front ==> x < last;
    }
  }

  lemma CalledTells(sc: Setting, n: Node, path: Path, params: Params, inputs: map<PortName, Value>, result: NodeResult, run: Run)
    requires n.Registered? && run.trace == AllTold(sc, run.calls)
    requires Returned(sc, Invocation(path + [n.id], n.typeId, n.version, params, inputs)) == Some(result)
    ensures var called := Called(sc, n, path, params, inputs, result, run);
      called.trace == AllTold(sc, called.calls) && called.calls == run.calls + [Invocation(path + [n.id], n.typeId, n.version, params, inputs)]
  {
    hide AllTold, Returned;
    var here := path + [n.id];
    var call := Invocation(here, n.typeId, n.version, params, inputs);
    assert here[..|here| - 1] == path && here[|here| - 1] == n.id;
    assert NodeEvents(path, n.id, result.emitted) == Told(sc, call);
    ToldSnoc(sc, run.calls, call);
  }

  /** A fault of the last call is the one its outcome gives. */
  lemma EndsBy(sc: Setting, i: Implementation, c: Invocation, r: Run)
    requires sc.catalog.Resolve(c.typeId, c.version) == Resolved(i) && r.calls != [] && r.calls[|r.calls| - 1] == c
    requires r.failure.Some? ==> Names(r.failure.value, c, i.evaluate(Shown(sc.context, c)).outcome, OutputTypes(i.outputs))
    ensures EndedBy(sc, r)
  {
    hide Names, OutputTypes, Catalog.Resolve;
  }

  lemma InvokeTells(sc: Setting, i: Implementation, n: Node, path: Path, params: Params, inputs: map<PortName, Value>, run: Run)
    requires n.Registered? && sc.catalog.Resolve(n.typeId, n.version) == Resolved(i) && Telling(sc, run) && run.failure.None?
    ensures Telling(sc, Invoke(sc, i, n, path, params, inputs, run))
  {
    hide OutputTypes, WriteOutputs, Storable, AllTold, Catalog.Resolve, EndedBy, Called;
    var here := path + [n.id];
    var call := Invocation(here, n.typeId, n.version, params, inputs);
    assert Shown(sc.context, call) == sc.context.Invoked(here, params, inputs);
    var result := i.evaluate(sc.context.Invoked(here, params, inputs));
    CalledTells(sc, n, path, params, inputs, result, run);
    var called := Called(sc, n, path, params, inputs, result, run);
    NothingFailed(sc, n, path, params, inputs, result, run);
    var declared := OutputTypes(i.outputs);
    if result.outcome.Outputs? && result.outcome.ports.Keys == declared.Keys {
      WriteFails(called, here, declared, result.outcome.ports, Sorted(declared.Keys));
    }
    EndsBy(sc, i, call, Invoke(sc, i, n, path, params, inputs, run));
  }

  lemma NothingFailed(sc: Setting, n: Node, path: Path, params: Params, inputs: map<PortName, Value>, result: NodeResult, run: Run)
    requires n.Registered?
    ensures Called(sc, n, path, params, inputs, result, run).failure == run.failure
  {
  }

  lemma NotItsFault(sc: Setting, run: Run, r: Run)
    requires Telling(sc, run) && run.failure.None? && r.calls == run.calls && r.trace == run.trace
    requires r.failure.Some? ==> !NodeFault(r.failure.value)
    ensures Telling(sc, r)
  {
  }

  lemma RegisteredTells(sc: Setting, inst: Instance, path: Path, external: map<Slot, Value>, n: Node, run: Run)
    requires n.Registered? && Telling(sc, run) && run.failure.None?
    ensures Telling(sc, RunRegistered(sc, inst, path, external, n, run))
  {
    hide Gather, Invoke, Telling;
    var resolution := sc.catalog.Resolve(n.typeId, n.version);
    var r := RunRegistered(sc, inst, path, external, n, run);
    if resolution.Resolved? {
      var gathered := Gather(Wiring(inst.Edges(), external, path), run.store, n.id, Wants(resolution.implementation.inputs));
      if gathered.Inputs? {
        InvokeTells(sc, resolution.implementation, n, path, inst.ParamsOf(n.id), gathered.values, run);
      } else {
        NotItsFault(sc, run, r);
      }
    } else {
      NotItsFault(sc, run, r);
    }
  }

  lemma {:induction false} PublishTells(run: Run, here: Path, exposed: seq<ExposedPort>)
    requires run.failure.None?
    ensures var r := Publish(run, here, exposed);
      r.calls == run.calls && r.trace == run.trace && (r.failure.Some? ==> !NodeFault(r.failure.value))
  {
    if exposed != [] {
      PublishTells(run, here, exposed[..|exposed| - 1]);
    }
  }

  lemma {:induction false} NodeTells(sc: Setting, inst: Instance, path: Path, external: map<Slot, Value>, id: NodeId, run: Run)
    requires Runnable(sc.plan, inst, path) && id in inst.Ids() && Telling(sc, run) && run.failure.None?
    ensures Telling(sc, ExecNode(sc, inst, path, external, id, run))
    decreases inst, 1, 0
  {
    hide RunRegistered, Publish, Gather, ExecNodes, Telling;
    var n := NodeOf(inst.Nodes(), id);
    if n.Registered? {
      RegisteredTells(sc, inst, path, external, n, run);
    } else {
      var child, here := inst.children[id], path + [id];
      var r := RunComponent(sc, inst, path, external, id, run);
      assert r == ExecNode(sc, inst, path, external, id, run);
      var gathered := Gather(Wiring(inst.Edges(), external, path), run.store, id, ExposedWants(child.definition.exposedInputs));
      if gathered.Inputs? {
        NodesTell(sc, child, here, gathered.values, sc.plan(here, child.definition.graph), run);
        var nested := ExecGraph(sc, child, here, gathered.values, run);
        if nested.failure.None? {
          PublishTells(nested, here, child.definition.exposedOutputs);
          NotItsFault(sc, nested, r);
        }
      } else {
        NotItsFault(sc, run, r);
      }
    }
  }

  lemma {:induction false} NodesTell(sc: Setting, inst: Instance, path: Path, external: map<Slot, Value>, order: seq<NodeId>, run: Run)
    requires Runnable(sc.plan, inst, path) && (forall id :: id in order ==> id in inst.Ids()) && Telling(sc, run) && run.failure.None?
    ensures Telling(sc, ExecNodes(sc, inst, path, external, order, run))
    decreases inst, 2, |order|
  {
    hide ExecNode, Runnable, Telling;
    if order != [] {
      var front, id := order[..|order| - 1], order[|order| - 1];
      NodesTell(sc, inst, path, external, front, run);
      var before := ExecNodes(sc, inst, path, external, front, run);
      if before.failure.None? {
        NodeTells(sc, inst, path, external, id, before);
      }
    }
  }

  /** The trace of a document run is what its invocations told, one after the other, and a node fault that ends it is the fault
      of its last invocation. */
  lemma RunTells(sc: Setting, inst: Instance)
    requires Runnable(sc.plan, inst, [])
    ensures var run := RunOf(sc, inst);
      run.trace == AllTold(sc, run.calls) && EndedBy(sc, run)
  {
    hide ExecNodes;
    assert Telling(sc, sc.context.Start());
    NodesTell(sc, inst, [], map[], sc.plan([], inst.definition.graph), sc.context.Start());
  }

  /** The strategy's resolved tree, under the run's catalog and context. */
  ghost function DocumentRun(cat: Catalog, doc: Document, store: Definitions, context: Context): Run
    requires KeyedByIdentity(store) && EntryFaults(cat, doc, store, context) == {}
  {
    NoFaultsMeansClean(cat, doc, store, context);
    RootIsRunnable(cat, doc, store);
    RunOf(Planned(cat, context), RootInstance(cat, doc, store))
  }

  ghost predicate IsTerminal(doc: Document, id: NodeId) {
    exists n :: n in doc.graph.nodes && n.Registered? && n.typeId == TERMINAL_TYPE_ID && n.id == id
  }

  ghost predicate NoTargetsDelivered(doc: Document, diagnostics: Findings) {
    exists id :: IsTerminal(doc, id) && diagnostics == {Diagnostic(InvalidTerminalNode, [id], id)}
  }

  /** The outcome of a run: the fault that ended it, or the targets, or the terminal that got none. */
  ghost predicate OutcomeOf(doc: Document, run: Run, outcome: Outcome) {
    && outcome.trace == run.trace && outcome.outputs == run.store
    && (run.failure.Some? ==> outcome.diagnostics == {run.failure.value} && outcome.targets == None)
    && (run.failure.None? ==> if outcome.targets.Some? then outcome.diagnostics == {} else NoTargetsDelivered(doc, outcome.diagnostics))
  }

  lemma ExtractedTells(cat: Catalog, doc: Document, run: Run)
    requires |TerminalNodes(doc.graph.nodes)| == 1
    ensures OutcomeOf(doc, run, Extracted(cat, doc, run))
  {
    hide DeliveredTargets;
    var terminal := TerminalNodes(doc.graph.nodes)[0];
    assert terminal in TerminalNodes(doc.graph.nodes);
    assert IsTerminal(doc, terminal.id);
  }

  lemma EvaluationIs(cat: Catalog, doc: Document, store: Definitions, context: Context)
    requires KeyedByIdentity(store) && EntryFaults(cat, doc, store, context) == {}
    ensures |TerminalNodes(doc.graph.nodes)| == 1
    ensures Evaluation(cat, doc, store, context) == Extracted(cat, doc, DocumentRun(cat, doc, store, context))
  {
    hide EntryFaults, KeyedByIdentity, RootInstance, RunOf, Extracted, Runnable, WellWired, TerminalNodes;
    NoFaultsMeansClean(cat, doc, store, context);
    RootIsRunnable(cat, doc, store);
  }

  lemma DocumentRunTells(cat: Catalog, doc: Document, store: Definitions, context: Context)
    requires KeyedByIdentity(store) && EntryFaults(cat, doc, store, context) == {}
    ensures var run := DocumentRun(cat, doc, store, context);
      run.trace == AllTold(Planned(cat, context), run.calls) && EndedBy(Planned(cat, context), run)
  {
    hide EntryFaults, KeyedByIdentity, RootInstance, RunOf, AllTold, EndedBy, Runnable, WellWired, TerminalNodes;
    NoFaultsMeansClean(cat, doc, store, context);
    RootIsRunnable(cat, doc, store);
    RunTells(Planned(cat, context), RootInstance(cat, doc, store));
  }

  /** An evaluation that is refused at entry runs nothing and reports the entry faults. Otherwise its trace is what its invocations
      told; if a node fails, that fault is all it reports, and the trace goes up to it. */
  lemma EvaluationTells(cat: Catalog, doc: Document, store: Definitions, context: Context)
    requires KeyedByIdentity(store)
    ensures var outcome, faults := Evaluation(cat, doc, store, context), EntryFaults(cat, doc, store, context);
      if faults != {} then outcome.diagnostics == faults && outcome.targets == None && outcome.trace == [] && outcome.outputs == map[]
      else
        var run := DocumentRun(cat, doc, store, context);
        OutcomeOf(doc, run, outcome) && outcome.trace == AllTold(Planned(cat, context), run.calls) && EndedBy(Planned(cat, context), run)
  {
    if EntryFaults(cat, doc, store, context) == {} {
      hide EntryFaults, KeyedByIdentity, DocumentRun, Extracted, AllTold, EndedBy, Evaluation, NoTargetsDelivered;
      EvaluationIs(cat, doc, store, context);
      DocumentRunTells(cat, doc, store, context);
      ExtractedTells(cat, doc, DocumentRun(cat, doc, store, context));
    } else {
      hide EntryFaults, KeyedByIdentity, DocumentRun, Extracted;
    }
  }

  /** The targets of an evaluation are the value stored at the port that feeds the one input of a terminal node. */
  ghost predicate TargetsFrom(cat: Catalog, doc: Document, outputs: Store, e: Edge, targets: Weights) {
    && e in doc.graph.edges && IsTerminal(doc, e.dst)
    && Get(outputs, ([e.src], e.srcPort)) == Some(PortfolioTargetsValue(targets))
    && exists n :: n in doc.graph.nodes && n.Registered? && n.id == e.dst && n.typeId == TERMINAL_TYPE_ID && (n.typeId, n.version) in cat.byKey
         && |cat.byKey[(n.typeId, n.version)].inputs| == 1 && cat.byKey[(n.typeId, n.version)].inputs[0].name == e.dstPort
  }

  lemma DeliveredFrom(cat: Catalog, doc: Document, terminal: Node, outputs: Store, targets: Weights)
    requires terminal in doc.graph.nodes && terminal.Registered? && terminal.typeId == TERMINAL_TYPE_ID
    requires DeliveredTargets(cat, doc, terminal, outputs) == Some(targets)
    ensures exists e :: TargetsFrom(cat, doc, outputs, e, targets)
  {
    ResolveIs(cat, terminal.typeId, terminal.version);
    var i := cat.byKey[(terminal.typeId, terminal.version)];
    var source := SourceOf(doc.graph.edges, terminal.id, i.inputs[0].name).value;
    var e := Edge(source.0, source.1, terminal.id, i.inputs[0].name);
    assert IsTerminal(doc, e.dst);
    assert TargetsFrom(cat, doc, outputs, e, targets);
  }

  /** Where the targets come from. */
  lemma EvaluationDelivers(cat: Catalog, doc: Document, store: Definitions, context: Context)
    requires KeyedByIdentity(store) && Evaluation(cat, doc, store, context).targets.Some?
    ensures var outcome := Evaluation(cat, doc, store, context);
      exists e :: TargetsFrom(cat, doc, outcome.outputs, e, outcome.targets.value)
  {
    hide EntryFaults, KeyedByIdentity, DocumentRun, DeliveredTargets, TargetsFrom;
    if EntryFaults(cat, doc, store, context) == {} {
      EvaluationIs(cat, doc, store, context);
      hide Evaluation;
      var terminal := TerminalNodes(doc.graph.nodes)[0];
      assert terminal in TerminalNodes(doc.graph.nodes);
      var outcome := Evaluation(cat, doc, store, context);
      DeliveredFrom(cat, doc, terminal, outcome.outputs, outcome.targets.value);
    }
  }

  /* ---- the executor's own checks, behind pre-flight ---- */

  /** The first input, in port order, that is required and has no value. */
  ghost predicate FirstUnavailable<K>(w: Wiring, store: Store, node: NodeId, wants: seq<Want<K>>, port: PortName) {
    exists k :: 0 <= k < |wants| && wants[k].port == port && !Available(w, store, node, wants[k])
      && forall j :: 0 <= j < k ==> Available(w, store, node, wants[j])
  }

  lemma {:induction false} GatherStops<K>(w: Wiring, store: Store, node: NodeId, wants: seq<Want<K>>)
    ensures Gather(w, store, node, wants).Missing? ==> FirstUnavailable(w, store, node, wants, Gather(w, store, node, wants).port)
  {
    hide InputValue;
    if wants != [] {
      var n := |wants| - 1;
      var front := wants[..n];
      GatherStops(w, store, node, front);
      GatherIs(w, store, node, front);
      assert forall k :: 0 <= k < n ==> front[k] == wants[k];
      var before := Gather(w, store, node, front);
      if before.Missing? {
        var k :| 0 <= k < |front| && front[k].port == before.port && !Available(w, store, node, front[k])
          && forall j :: 0 <= j < k ==> Available(w, store, node, front[j]);
        assert wants[k].port == before.port;
      } else if Gather(w, store, node, wants).Missing? {
        assert wants[n].port == Gather(w, store, node, wants).port;
      }
    }
  }

  /** The run stopped before the node, for want of that input. */
  ghost predicate LacksInput(w: Wiring, run: Run, node: NodeId, wants: seq<Want<PortName>>, r: Run) {
    exists port :: FirstUnavailable(w, run.store, node, wants, port)
      && r == run.(failure := Some(Diagnostic(MissingRuntimeInput, w.path + [node], port)))
  }

  /** A registered node is not invoked without an implementation, or without a required input, and the fault names it. */
  lemma RefusedInvocation(sc: Setting, inst: Instance, path: Path, external: map<Slot, Value>, n: Node, run: Run)
    requires n.Registered? && run.failure.None?
    ensures var r, w := RunRegistered(sc, inst, path, external, n, run), Wiring(inst.Edges(), external, path);
      if (n.typeId, n.version) !in sc.catalog.byKey
      then r == run.(failure := Some(Diagnostic(ImplementationUnavailable, path + [n.id], n.typeId)))
      else
        var wants := Wants(sc.catalog.byKey[(n.typeId, n.version)].inputs);
        |r.calls| == |run.calls| ==> LacksInput(w, run, n.id, wants, r)
  {
    hide Gather, Wants, WriteOutputs, FirstUnavailable;
    ResolveIs(sc.catalog, n.typeId, n.version);
    if (n.typeId, n.version) in sc.catalog.byKey {
      var i := sc.catalog.byKey[(n.typeId, n.version)];
      var w := Wiring(inst.Edges(), external, path);
      GatherStops(w, run.store, n.id, Wants(i.inputs));
      var gathered := Gather(w, run.store, n.id, Wants(i.inputs));
      if gathered.Inputs? {
        InvokeCalls(sc, i, n, path, inst.ParamsOf(n.id), gathered.values, run);
      }
    }
  }

  lemma InvokeCalls(sc: Setting, i: Implementation, n: Node, path: Path, params: Params, inputs: map<PortName, Value>, run: Run)
    requires n.Registered? && run.failure.None?
    ensures |Invoke(sc, i, n, path, params, inputs, run).calls| == |run.calls| + 1
  {
    hide WriteOutputs, OutputTypes;
    var here := path + [n.id];
    var result := i.evaluate(sc.context.Invoked(here, params, inputs));
    var called := Called(sc, n, path, params, inputs, result, run);
    var declared := OutputTypes(i.outputs);
    if result.outcome.Outputs? && result.outcome.ports.Keys == declared.Keys {
      WriteFails(called, here, declared, result.outcome.ports, Sorted(declared.Keys));
    }
  }
}
