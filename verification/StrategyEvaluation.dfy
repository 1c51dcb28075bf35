/** Single-instant evaluation of a document: `evaluate_strategy` of quantize/evaluator/evaluate.py. */
module StrategyEvaluation {
  import opened Closure
  import opened Collections
  import opened Compositionality
  import opened Cycles
  import opened Diagnostics
  import opened Documents
  import opened Evaluator
  import opened Execution
  import opened Market
  import opened Memos
  import opened Planning
  import opened Portfolio
  import opened Preflight
  import opened Typing

  /** The structured result of one evaluation. */
  datatype Outcome = Outcome(diagnostics: Findings, targets: Option<Weights>, outputs: Store, trace: seq<NodeEvent>, memo: Memo)
  {
    predicate Ok() { targets.Some? }
  }

  /** The document-layer findings and the one data-dependent check. */
  ghost function EntryFaults(cat: Catalog, doc: Document, store: Definitions, context: Context): Findings
    requires KeyedByIdentity(store)
  {
    PreflightOf(cat, doc, store).Faults() + if context.view.sessions == [] then {Fault(NoVisibleSession, 0)} else {}
  }

  /** What the single terminal node was delivered on its single input. */
  function DeliveredTargets(cat: Catalog, doc: Document, terminal: Node, outputs: Store): Option<Weights>
    requires terminal.Registered?
  {
    match cat.Resolve(terminal.typeId, terminal.version)
    case Resolved(i) =>
      if |i.inputs| != 1 then None
      else
        (match SourceOf(doc.graph.edges, terminal.id, i.inputs[0].name)
         case Some(source) =>
           (var delivered: Option<Value> := Get(outputs, ([source.0], source.1));
            if delivered.Some? && delivered.value.PortfolioTargetsValue? then Some(delivered.value.weights) else None)
         case None => None)
    case _ => None
  }

  /** The outcome of a finished execution. */
  ghost function Extracted(cat: Catalog, doc: Document, run: Run): Outcome
    requires |TerminalNodes(doc.graph.nodes)| == 1
  {
    if run.failure.Some? then Outcome({run.failure.value}, None, run.store, run.trace, run.memo)
    else
      var terminal := TerminalNodes(doc.graph.nodes)[0];
      assert terminal in TerminalNodes(doc.graph.nodes);
      var targets := DeliveredTargets(cat, doc, terminal, run.store);
      if targets.None? then Outcome({Diagnostic(InvalidTerminalNode, [terminal.id], terminal.id)}, None, run.store, run.trace, run.memo)
      else Outcome({}, targets, run.store, run.trace, run.memo)
  }

  ghost function RootInstance(cat: Catalog, doc: Document, store: Definitions): Instance
    requires KeyedByIdentity(store)
  {
    RootOf(doc, PreflightOf(cat, doc, store).instances)
  }

  lemma RootIsRunnable(cat: Catalog, doc: Document, store: Definitions)
    requires KeyedByIdentity(store) && PreflightOf(cat, doc, store).Ok()
    ensures Runnable(LeastPlan, RootInstance(cat, doc, store), []) && TopLevel(RootInstance(cat, doc, store))
    ensures WellWired(cat, RootInstance(cat, doc, store)) && |TerminalNodes(doc.graph.nodes)| == 1 && UniqueIds(doc.graph.nodes)
  {
    hide PreflightOf, WellWired, Runnable;
    CleanIsWellWired(cat, doc, store);
    WellWiredIsRunnable(cat, RootInstance(cat, doc, store), []);
  }

  lemma NoFaultsMeansClean(cat: Catalog, doc: Document, store: Definitions, context: Context)
    requires KeyedByIdentity(store)
    ensures EntryFaults(cat, doc, store, context) == {} <==> PreflightOf(cat, doc, store).Ok() && context.view.sessions != []
  {
    hide PreflightOf;
  }

  ghost function Evaluation(cat: Catalog, doc: Document, store: Definitions, context: Context): Outcome
    requires KeyedByIdentity(store)
  {
    var faults := EntryFaults(cat, doc, store, context);
    if faults != {} then Outcome(faults, None, map[], [], context.Start().memo)
    else
      NoFaultsMeansClean(cat, doc, store, context);
      RootIsRunnable(cat, doc, store);
      Extracted(cat, doc, RunOf(Planned(cat, context), RootInstance(cat, doc, store)))
  }

  /** `evaluate_strategy`. A memo refuses an instant earlier than the last one it was fed. */
  method EvaluateStrategy(cat: Catalog, doc: Document, store: Definitions, data: DataSet, instant: Instant, memo: EvaluationMemo?)
    returns (r: Option<Outcome>)
    requires KeyedByIdentity(store)
    modifies if memo == null then {} else {memo}
    ensures r.None? <==> memo != null && old(memo.highWater).Some? && instant < old(memo.highWater).value
    ensures r.Some? ==> r.value == Evaluation(cat, doc, store, Context(AsOf(data, instant), old(MemoNow(memo))))
    ensures r.Some? && memo != null ==> memo.slots == r.value.memo && memo.highWater == Some(instant)
    ensures r.None? ==> memo.slots == old(memo.slots) && memo.highWater == old(memo.highWater)
  {
    hide PreflightOf, KeyedByIdentity, RootOf, ExecGraph, Runnable, AsOf, UnreadBelow;
    if memo != null {
      var accepted := memo.AssertMonotonic(instant);
      if !accepted {
        return None;
      }
    }
    var preflight := RunDocumentPreflight(cat, doc, store);
    var diagnostics := preflight.Faults();
    var view := AsOf(data, instant);
    ghost var context := Context(view, MemoNow(memo));
    if view.sessions == [] {
      diagnostics := diagnostics + {Fault(NoVisibleSession, 0)};
    }
    if diagnostics != {} {
      return Some(Outcome(diagnostics, None, map[], [], if memo == null then map[] else memo.slots));
    }
    NoFaultsMeansClean(cat, doc, store, context);
    RootIsRunnable(cat, doc, store);
    var executor := new Executor(cat, view, memo);
    var failure := executor.ExecuteGraph(RootOf(doc, preflight.instances), [], map[]);
    var left := if memo == null then map[] else memo.slots;
    if failure.Some? {
      return Some(Outcome({failure.value}, None, executor.store, executor.trace, left));
    }
    var terminal := TerminalNodes(doc.graph.nodes)[0];
    assert terminal in TerminalNodes(doc.graph.nodes);
    var targets := DeliveredTargets(cat, doc, terminal, executor.store);
    if targets.None? {
      return Some(Outcome({Diagnostic(InvalidTerminalNode, [terminal.id], terminal.id)}, None, executor.store, executor.trace, left));
    }
    return Some(Outcome({}, targets, executor.store, executor.trace, left));
  }

  /** A terminal type that can receive targets, as the catalog describes it: one input, of the targets type. */
  predicate AcceptsTargets(i: Implementation) {
    |i.inputs| == 1 && i.inputs[0].portType == PortfolioTargetsType
  }

  /** The input of the terminal node is connected by an edge. */
  predicate TerminalConnected(doc: Document, terminal: Node, i: Implementation) {
    |i.inputs| == 1 && SourceOf(doc.graph.edges, terminal.id, i.inputs[0].name).Some?
  }

  lemma SingleInput(i: Implementation)
    requires |i.inputs| == 1
    ensures InputTypes(i.inputs)[i.inputs[0].name] == i.inputs[0].portType
  {
    assert i.inputs == [i.inputs[0]];
  }

  /** A compatible value is a targets value exactly when the port has the targets type. */
  lemma TargetsByType(v: Value, declared: PortType, port: PortType)
    requires IsCompatible(PortTypeOf(v), declared) && IsCompatible(declared, port)
    ensures v.PortfolioTargetsValue? <==> port == PortfolioTargetsType
  {
  }

  /** Exactly when a terminal node of a well-wired document that ran is delivered its targets. */
  lemma TerminalDelivered(cat: Catalog, doc: Document, root: Instance, outputs: Store, terminal: Node)
    requires GraphWired(cat, root) && root.definition.graph == doc.graph && terminal in doc.graph.nodes && terminal.Registered?
    requires forall id :: id in root.Ids() ==> Delivered(cat, root, [], outputs, id)
    ensures cat.Resolve(terminal.typeId, terminal.version).Resolved?
    ensures var i := cat.Resolve(terminal.typeId, terminal.version).implementation;
      DeliveredTargets(cat, doc, terminal, outputs).Some? <==> AcceptsTargets(i) && TerminalConnected(doc, terminal, i)
  {
    hide OutputTable, ComponentReady, UniqueIds, Within, Acyclic, OutputExposureTyped, InputExposureTyped, IsCompatible, Fed;
    assert RegisteredReady(cat, root, terminal);
    var i := cat.Resolve(terminal.typeId, terminal.version).implementation;
    if |i.inputs| == 1 {
      var name := i.inputs[0].name;
      SingleInput(i);
      var source := SourceOf(doc.graph.edges, terminal.id, name);
      if source.Some? {
        var e := Edge(source.value.0, source.value.1, terminal.id, name);
        assert e in root.Edges();
        assert EdgeTyped(cat, root, e);
        NodeOfUnique(doc.graph.nodes, terminal);
        assert InputTable(cat, root, terminal.id) == InputTypes(i.inputs);
        assert Delivered(cat, root, [], outputs, e.src);
        assert [] + [e.src] == [e.src];
        TargetsByType(outputs[([e.src], e.srcPort)], OutputTable(cat, root, e.src)[e.srcPort], i.inputs[0].portType);
      }
    }
  }

  /** The terminal of an accepted document, and the implementation the catalog gives it. */
  ghost predicate TerminalAccepts(cat: Catalog, doc: Document)
    requires |TerminalNodes(doc.graph.nodes)| == 1
  {
    var terminal := TerminalNodes(doc.graph.nodes)[0];
    terminal.Registered? && cat.Resolve(terminal.typeId, terminal.version).Resolved?
    && AcceptsTargets(cat.Resolve(terminal.typeId, terminal.version).implementation)
    && TerminalConnected(doc, terminal, cat.Resolve(terminal.typeId, terminal.version).implementation)
  }

  /** The evaluation stopped inside a node: it raised, or broke its own output contract. */
  ghost predicate FailedInNode(outcome: Outcome) {
    !outcome.Ok() && exists d :: outcome.diagnostics == {d} && NodeFault(d)
  }

  ghost predicate TerminalInvalid(outcome: Outcome) {
    !outcome.Ok() && exists d :: outcome.diagnostics == {d} && d.code == InvalidTerminalNode
  }

  /** Once pre-flight is clean and a session is visible, evaluation fails only inside a node, or because the terminal node
      cannot receive targets, which the document and the catalog alone decide. */
  lemma EvaluationProgress(cat: Catalog, doc: Document, store: Definitions, context: Context)
    requires KeyedByIdentity(store) && PreflightOf(cat, doc, store).Ok() && context.view.sessions != []
    ensures |TerminalNodes(doc.graph.nodes)| == 1
    ensures var outcome := Evaluation(cat, doc, store, context);
      && (outcome.Ok() ==> outcome.diagnostics == {})
      && (!FailedInNode(outcome) ==> (outcome.Ok() <==> TerminalAccepts(cat, doc)))
      && (!FailedInNode(outcome) ==> (TerminalInvalid(outcome) <==> !TerminalAccepts(cat, doc)))
  {
    hide PreflightOf, KeyedByIdentity, RootOf, ExecGraph, Runnable, WellWired, DeliveredTargets, GraphWired, RunOf, TerminalNodes;
    NoFaultsMeansClean(cat, doc, store, context);
    RootIsRunnable(cat, doc, store);
    var sc, root := Planned(cat, context), RootInstance(cat, doc, store);
    RunIsSound(sc, root);
    var run := RunOf(sc, root);
    var terminal := TerminalNodes(doc.graph.nodes)[0];
    assert terminal in TerminalNodes(doc.graph.nodes);
    if run.failure.None? {
      RootFacts(cat, doc, store);
      TerminalDelivered(cat, doc, root, run.store, terminal);
      var d := Diagnostic(InvalidTerminalNode, [terminal.id], terminal.id);
      assert DeliveredTargets(cat, doc, terminal, run.store).None? ==> Evaluation(cat, doc, store, context).diagnostics == {d};
    } else {
      var d := run.failure.value;
      assert NodeFault(d);
      assert Evaluation(cat, doc, store, context).diagnostics == {d};
    }
  }

  lemma RootFacts(cat: Catalog, doc: Document, store: Definitions)
    requires KeyedByIdentity(store) && WellWired(cat, RootInstance(cat, doc, store))
    ensures GraphWired(cat, RootInstance(cat, doc, store)) && RootInstance(cat, doc, store).definition.graph == doc.graph
  {
    hide GraphWired, PreflightOf;
  }

  /** For a terminal descriptor with one required targets input, evaluation never reports `invalid_terminal_node`,
      `implementation_unavailable` or `missing_runtime_input`. */
  lemma RequiredTerminalNeverInvalid(cat: Catalog, doc: Document, store: Definitions, context: Context)
    requires KeyedByIdentity(store) && PreflightOf(cat, doc, store).Ok() && context.view.sessions != []
    requires forall n :: n in TerminalNodes(doc.graph.nodes) ==>
      match cat.Resolve(n.typeId, n.version) case Resolved(i) => AcceptsTargets(i) && i.inputs[0].required case _ => false
    ensures Evaluation(cat, doc, store, context).Ok() || FailedInNode(Evaluation(cat, doc, store, context))
  {
    hide PreflightOf, KeyedByIdentity, RootOf, ExecGraph, Runnable, WellWired, DeliveredTargets, Evaluation, TerminalNodes, RunOf, GraphWired;
    EvaluationProgress(cat, doc, store, context);
    RootIsRunnable(cat, doc, store);
    RootFacts(cat, doc, store);
    var root := RootInstance(cat, doc, store);
    var terminal := TerminalNodes(doc.graph.nodes)[0];
    assert terminal in TerminalNodes(doc.graph.nodes);
    RequiredIsConnected(cat, doc, root, terminal);
  }

  lemma RequiredIsConnected(cat: Catalog, doc: Document, root: Instance, terminal: Node)
    requires GraphWired(cat, root) && TopLevel(root) && root.definition.graph == doc.graph && terminal in doc.graph.nodes && terminal.Registered?
    requires cat.Resolve(terminal.typeId, terminal.version).Resolved?
    requires |cat.Resolve(terminal.typeId, terminal.version).implementation.inputs| == 1
    requires cat.Resolve(terminal.typeId, terminal.version).implementation.inputs[0].required
    ensures TerminalConnected(doc, terminal, cat.Resolve(terminal.typeId, terminal.version).implementation)
  {
    hide ComponentReady, UniqueIds, Within, Acyclic, OutputExposureTyped, InputExposureTyped, EdgeTyped;
    var i := cat.Resolve(terminal.typeId, terminal.version).implementation;
    assert RegisteredReady(cat, root, terminal);
    assert i.inputs[0] in i.inputs;
    assert Fed(root, terminal.id, i.inputs[0].name);
    assert !Exposed(root.definition, terminal.id, i.inputs[0].name);
    assert exists e :: e in root.Edges() && e.dst == terminal.id && e.dstPort == i.inputs[0].name;
  }

  lemma RootGraphIs(cat: Catalog, doc: Document, store: Definitions)
    requires KeyedByIdentity(store)
    ensures RootInstance(cat, doc, store).definition.graph == doc.graph
  {
    hide PreflightOf;
  }

  /** Targets are the value of the terminal's one input. */
  lemma DeliveredIsInput(cat: Catalog, doc: Document, terminal: Node, outputs: Store)
    requires terminal.Registered? && cat.Resolve(terminal.typeId, terminal.version).Resolved?
    requires |cat.Resolve(terminal.typeId, terminal.version).implementation.inputs| == 1
    ensures var port := cat.Resolve(terminal.typeId, terminal.version).implementation.inputs[0].name;
      var value := InputValue(Wiring(doc.graph.edges, map[], []), outputs, terminal.id, port);
      DeliveredTargets(cat, doc, terminal, outputs) ==
      if value.Some? && value.value.PortfolioTargetsValue? then Some(value.value.weights) else None
  {
    var source := SourceOf(doc.graph.edges, terminal.id, cat.Resolve(terminal.typeId, terminal.version).implementation.inputs[0].name);
    if source.Some? {
      assert [] + [source.value.0] == [source.value.0];
    }
  }
}
