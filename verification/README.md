# Quantize, verified

Quantize runs a versioned strategy graph over an availability-gated market dataset. One session engine serves both a
one-shot backtest and a stepwise forward replay. This project models its four connected cores in Dafny and proves what
the program relies on:

- **A typed dataflow language with modules.** Documents and component definitions are graphs of typed nodes. The validators
  (cycle search, structural, semantic, component resolution, top-level wiring, the terminal rule) are methods proved equal
  to the findings they should report; what they accept is a well-wired hierarchy. Execution of such a hierarchy can only
  fail inside a node, and computes the unique solution of the flat dataflow equations, whatever topological order is used.
  Grouping, which an author of documents does by hand, is stated as an operation: it moves any set of a document's nodes that
  no path of edges leaves and re-enters into a new component definition, with exposed ports for the crossing edges. The
  grouped document passes pre-flight, resolves to the grouped instance, and computes the same values, targets and backtest.
  Node types are arbitrary functions from place, parameters, inputs, view and the node's own part of the memo to outputs or
  failure; for grouping, their outcome must not depend on their place.
- **The session engine as a state machine.** A step is fills at the open, a mark at the close, then evaluation, planning and
  queueing. Whole-run invariants, the failures a run can end with, and no look-ahead as a two-run property are proved for
  every document, dataset, window and node catalog.
- **The run's memo.** Every node evaluation is handed its own part of one memo that lives as long as the run, and a resumed
  replay starts from an empty one. If only moving averages use the memo, and the series delivered to each of them only grows
  along the evaluations of the window, then every session does what it would do without a memo, so that a backtest equals a
  forward replay under any checkpoint cuts. Catalogs like the program's own, where series come from the price node and from
  moving averages, meet the condition for every document, dataset and window. It cannot be dropped: one pure node that
  revises past points makes a replay with one cut differ from the backtest. Without cuts the drivers agree over any catalog.
- **Speed-only structures.** The market cursor and the memo object are mutable objects proved to answer exactly what the
  simple definition answers.
- **What is reported.** Which fault each diagnostic of the validators, of pre-flight, of planning and of fills names, and that
  every fault is reported; what an evaluation traces, call by call; when each note is recorded; what a valuation, a plan, a
  fill and a whole result say, in terms of the dataset's observations and the calendar.
- **Money arithmetic.** Order planning, cash-floor fills with costs, the rebalance fixpoint and the cap-and-redistribute
  loop, over reals.

Conventions: node ids, tickers, port names, dates and instants are ordered integers; money, prices and weights are reals;
a diagnostic is its code, execution path and subject. Each imperative source routine is a method with loops, or a method of
a class with the source's fields, whose postcondition ties it to a specification function; the theorems are lemmas about
those functions. Validators' findings are sets, since the program sorts them before reporting; the engine's and the money
routines' findings are multisets.

Two places where the program's comments promise more than the code gives:

- The warm-up gate's comment says that the first evaluation happens at the first session at which every node's output is
  defined. The code takes the maximum of the declared warm-ups, so an average of an average is evaluated too early. For the
  document of a chain of averages, `AverageWarmup.FirstEvaluationDefinedIff` finds the session at which the engine first
  evaluates and gives the exact condition; `Counterexamples.TwoWindowsTooEarly` is a run that violates it.
- Evaluation after a clean pre-flight can still report an invalid terminal node, when the terminal type's descriptor does not
  have exactly one connected input of the targets type. `StrategyEvaluation.EvaluationProgress` gives the exact condition,
  and `Counterexamples.UnconnectedTerminalIsInvalid` is an accepted document of which every evaluation does so.

Files follow the program: `Structural`, `Planning`, `Validation`, `PortWiring`, `DefinitionChecks`, `Closure`,
`Instantiation`, `TreeWiring`, `Resolution`, `Preflight`, `FlatDocuments`, `WiredChecks` (validation); `Documents`,
`PortValues`, `Evaluator`, `Frames`, `Typing`, `Flattening`, `Denotation`, `Compositionality`, `Execution`,
`StrategyEvaluation`, `EvaluationTraces`, `Overrides`, `Warmup` (evaluation); `FindingCodes`, `SemanticCodes`,
`PreflightCodes` (what findings name); `Regrouping`, `Grouping`, `Convexity`, `GroupedFlows`, `GroupedRuns`, `GroupedClosures`, `GroupedDocuments`,
`GroupedEvaluations`, `GroupedBacktests` (grouping into components); `Market`, `Cursor`, `Lookups`, `MovingAverage`, `Means`,
`SeriesNodes`, `AverageLoops`, `Values` (data, series nodes and the memo object); `Invocations`, `Transparency`, `Growth`, `MemoRuns` (the
memo over evaluations and runs); `Portfolio`, `Reconciliation`, `PlanProperties`, `PlanNumbers`, `Fills`, `FillProperties`,
`Charges`, `Rebalance`, `Waterfall` (money); `Schedule`, `Engine`, `SessionEngine`, `Replay`, `RunInvariants`, `RunTheorems`, `Marks`,
`SessionRecords`, `Results`, `LookAhead`, `TraceTree` (the engine); `Pipelines`, `PipelineRuns`, `AveragePipelines`, `AverageWarmup`, `Counterexamples` (runs of
concrete documents). `Collections` and `Diagnostics` are shared vocabulary.

## Model

| member | source | states |
|---|---|---|
| Compositionality.RunIsSound | quantize/evaluator/evaluate.py:115-284 | Type soundness and progress: on a well-wired document no run reports a missing implementation or a missing runtime input, at any component depth; every value delivered to a node has a port type compatible with its declared input; on success every declared output of every top-level node is stored |
| Typing.GraphSound | quantize/evaluator/evaluate.py:115-284 | The same for the graph inside any component instance, given external inputs that satisfy its exposures |
| Typing.NodeSound | quantize/evaluator/evaluate.py:152-284 | One node, registered or component: it stores outputs compatible with its declaration or fails inside a node |
| Typing.ComponentInputs | quantize/evaluator/evaluate.py:245-257 | A component node is always handed a value for each exposed input, and the values satisfy the internal ports they map to |
| Typing.PublishTyped | quantize/evaluator/evaluate.py:270-284 | Publication of exposed outputs never misses and keeps types compatible |
| Typing.GatherIs | quantize/evaluator/evaluate.py:177-191 | Input assembly succeeds exactly when every required input has a value, and hands over what is there and nothing else |
| Typing.WellWiredIsRunnable | quantize/evaluator/plan.py:26-61 | Planning never raises on any graph of a well-wired hierarchy |
| Compositionality.RunSolvesEquations | quantize/evaluator/evaluate.py:94-150 | A successful run solves the flat dataflow equations obtained by resolving every input through edges, exposed inputs and exposed outputs to any depth, and every stored address holds the value of the leaf output behind it |
| Compositionality.SolutionIsComputed | quantize/evaluator/evaluate.py:94-150 | Conversely, if the flat equations of a well-wired document have a solution, execution in every topological order succeeds and stores exactly that solution |
| Compositionality.SolutionsAgree | quantize/evaluator/evaluate.py:94-150 | The flat equations have at most one solution on the leaves |
| Compositionality.OrderDoesNotMatter | quantize/evaluator/evaluate.py:124-136 | If one topological order succeeds, every other one does, with the same value store |
| Regrouping.RegroupingKeepsValues | quantize/evaluator/evaluate.py:233-284 | Any two hierarchies whose leaves correspond compute the same: if one runs, the other does, and each leaf stores what the leaf it came from stores |
| Grouping.GroupingIsWiredIff | quantize/components/resolve.py:183-291 | Grouping any set of nodes into a component, with exposed ports for the crossing edges, keeps a document well wired at every depth exactly when the component node closes no cycle |
| Convexity.GroupableIffConvex | quantize/validation/structural.py:120-174 | It closes none exactly when no path of edges leaves the set and comes back to it |
| GroupedRuns.GroupingRegroups | quantize/evaluator/evaluate.py:233-284 | For every document and every such set the leaves before and after correspond one to one, in both directions, at any depth, with the same types, parameters and sources |
| GroupedRuns.GroupingKeepsValues | quantize/evaluator/evaluate.py:94-150 | The grouped document runs exactly when the original one does, and then every leaf stores the same values at its new place |
| GroupedRuns.GroupingKeepsInputs | quantize/evaluator/evaluate.py:138-150 | Every node left outside is delivered the same inputs |
| WiredChecks.WiredDefinitionIsClean | quantize/components/resolve.py:294-463 | The converse of what the definition checks establish: a well-wired definition gives them nothing to report |
| GroupedClosures.ClosureGains | quantize/components/resolve.py:580-620 | A new definition that pins the document's pins joins the fetched closure, and nothing else changes |
| GroupedDocuments.GroupedIsAccepted | quantize/evaluator/preflight.py:174-240 | Pre-flight accepts the grouped document over the store with the new definition, and resolves it to exactly the grouped instance |
| GroupedEvaluations.GroupingKeepsTargets | quantize/evaluator/evaluate.py:287-393 | For every document that pre-flight accepts and every set without the terminal node that no path leaves and re-enters, the grouped document evaluates to the same targets, or to none exactly when the original one does |
| GroupedBacktests.GroupingKeepsWarmup | quantize/evaluator/plan.py:83-119 | Grouping keeps the strategy-wide warm-up |
| GroupedBacktests.GroupingKeepsBacktest | quantize/engine/backtest.py:434-465 | The backtest of the grouped document has the same valuations, stale marks, evaluations, plans, fills, notes and final state, and succeeds when the original one does |
| GroupedBacktests.StandardGroupingKeepsBacktest | quantize/engine/backtest.py:434-465 | So it has over every catalog like the program's own whose nodes' outcomes do not depend on their place |
| Compositionality.GraphSolves | quantize/evaluator/evaluate.py:115-136 | The same as `RunSolvesEquations` for the graph inside any component, under the wires its owner passes on |
| Compositionality.GraphFollows | quantize/evaluator/evaluate.py:115-136 | The same as `SolutionIsComputed` for the graph inside any component |
| Frames.NodesFrame | quantize/evaluator/evaluate.py:152-284 | Executing a graph writes only strictly inside its own path |
| Frames.NodeFrame | quantize/evaluator/evaluate.py:152-284 | Executing a node writes only under its own path |
| Denotation.InvokeIs | quantize/evaluator/evaluate.py:193-231 | Invoking a node succeeds exactly when its outcome meets the declared output contract, and then stores exactly the outputs |
| Denotation.PublishIs | quantize/evaluator/evaluate.py:270-284 | After publication each exposed name carries the value of the internal output it maps to |
| Flattening.LeafIsItself | quantize/evaluator/evaluate.py:90-91 | The output of a registered node, at any depth, is its own flat source |
| Execution.Executor.ExecuteGraph | quantize/evaluator/evaluate.py:115-136 | The executor's store, trace, invocations and failure are those of the run specification, with `topological_order` as the order |
| Execution.Executor.ExecuteRegistered | quantize/evaluator/evaluate.py:152-231 | The same for one registered node: inputs in port order, invocation with the node's place and its own part of the memo, output checks in name order |
| Execution.Executor.ExecuteComponent | quantize/evaluator/evaluate.py:233-284 | The same for one component node: hand-over, nested graph, publication |
| StrategyEvaluation.EvaluateStrategy | quantize/evaluator/evaluate.py:287-393 | A memo refuses exactly an earlier instant; otherwise evaluation reports the pre-flight findings and a missing visible session, else executes with the memo and extracts the terminal's targets; the memo is left as the nodes left it |
| StrategyEvaluation.EvaluationProgress | quantize/evaluator/evaluate.py:351-393 | After a clean pre-flight with a visible session, an evaluation that does not fail inside a node delivers targets if and only if the terminal type has exactly one connected input of the targets type, and otherwise reports an invalid terminal |
| Counterexamples.UnconnectedTerminalIsInvalid | quantize/evaluator/evaluate.py:369-391 | A document that pre-flight accepts and of which every evaluation reports an invalid terminal, without any node failing |
| StrategyEvaluation.TerminalDelivered | quantize/evaluator/evaluate.py:369-380 | The value delivered to the terminal is a targets value exactly when its descriptor has one connected input of the targets type |
| StrategyEvaluation.RequiredTerminalNeverInvalid | quantize/evaluator/evaluate.py:369-391 | For a terminal descriptor with one required targets input, evaluation never reports an invalid terminal, an unavailable implementation or a missing runtime input |
| EvaluationTraces.RunTells | quantize/evaluator/evaluate.py:193-231 | The trace of a run is, call by call, what the invoked nodes emitted, each at its own component path and id, where each node is shown its own path, parameters and inputs, the view and its own part of the memo; and a node fault that ends a run is the last invocation's: it raised, or its ports are not the declared ones, or the named one is the first, in name order, that is no value of its declared type |
| EvaluationTraces.EvaluationTells | quantize/evaluator/evaluate.py:338-393 | An evaluation refused at entry reports the entry faults and runs nothing; otherwise its trace is what its invocations emitted, and it reports the one fault that ended it, nothing, or the terminal node that got no targets |
| EvaluationTraces.EvaluationDelivers | quantize/evaluator/evaluate.py:369-393 | The targets delivered are the value stored at the output that an edge connects to the one input of a terminal node |
| EvaluationTraces.RefusedInvocation | quantize/evaluator/evaluate.py:152-191 | A registered node that is not invoked has no implementation, or lacks a required input, and the fault names the type or the first such input in port order |
| Documents.CompatibleTransitive | quantize/compatibility.py:14-25 | Port compatibility composes along chains of connections |
| PortValues.CompatibleIff | quantize/compatibility.py:14-25 | Two ports are compatible exactly when every value the source may hand over is one the destination takes, an integer being taken for a number |
| PortValues.DeliveredIsTaken | quantize/compatibility.py:14-25 | A stored output may be delivered to a port exactly when the port takes it, and is taken wherever a compatible edge leads |
| PortValues.StorableIff | quantize/evaluator/evaluate.py:215-229 | An output is stored exactly when it is a runtime value of the declared type |
| Cycles.FindCycle | quantize/validation/structural.py:47-78 | The iterative three-colour search returns a genuine simple closed walk of adjacency edges, and returns none exactly when the graph is acyclic; it terminates |
| Cycles.SearchFrom | quantize/validation/structural.py:55-77 | One root: a cycle, or everything reachable from it finished |
| Cycles.FinishedIsAcyclic | quantize/validation/structural.py:47-78 | A graph whose nodes can be finished in depth-first order has no closed walk |
| Kahn.TopologicalOrder | quantize/evaluator/plan.py:26-61 | Kahn's algorithm with a heap returns the plan exactly when ids are distinct, endpoints exist and the graph is acyclic, and raises otherwise |
| Planning.AcyclicPlanIsTopological | quantize/evaluator/plan.py:26-61 | On an acyclic graph the plan is a permutation of the nodes that respects every edge |
| Planning.PlanIsLeast | quantize/evaluator/plan.py:47-57 | The plan is the lexicographically least topological order |
| Planning.PlanCompleteIffAcyclic | quantize/evaluator/plan.py:59-61 | The plan covers all nodes exactly when the graph is acyclic |
| Kahn.PlanIgnoresPresentation | quantize/evaluator/plan.py:34-57 | The plan depends only on the node set and the set of distinct edge pairs: not on list order, not on parallel edges |
| Validation.GraphFaultsNone | quantize/validation/structural.py:88-174 | Graph validation is silent exactly on graphs with unique ids, declared references, existing endpoints and no cycle |
| Validation.ValidateGraph | quantize/validation/structural.py:88-174 | The loops report exactly the findings of the graph |
| Validation.CheckEdges | quantize/validation/structural.py:120-167 | Endpoint and self-edge findings, and the adjacency of the remaining edges |
| Validation.ValidateDocument | quantize/validation/structural.py:226-234 | A document's findings: schema version, duplicate references, its graph |
| Validation.ValidateDefinition | quantize/validation/structural.py:237-268 | The same for a definition, with direct recursion |
| Validation.SetFaultsNone | quantize/validation/structural.py:271-346 | A definition set passes exactly when keys are distinct and no definition reaches itself through the set |
| Validation.ValidateSet | quantize/validation/structural.py:271-346 | The loops report exactly the findings of the set, and exactly the references that leave it |
| FindingCodes.GraphFindings | quantize/validation/structural.py:88-174 | Which fault every finding of a graph names, and that every fault is found: an id at two places, an undeclared reference, a missing endpoint, a self edge, a closed walk through distinct nodes' edges |
| FindingCodes.DocumentFindings | quantize/validation/structural.py:226-234 | The same for a document |
| FindingCodes.DefinitionFindings | quantize/validation/structural.py:237-268 | The same for a definition |
| FindingCodes.SetFindings | quantize/validation/structural.py:271-346 | The same for a definition set: a key at two places, direct recursion, a closed walk of references within the set |
| Closure.FetchDefinitionClosure | quantize/components/resolve.py:580-620 | The breadth-first fetch terminates with exactly the available definitions reachable from the pins, and reports exactly the reachable absent ones |
| Closure.LoadComponentCatalog | quantize/persistence/closure.py:21-54 | The store walk loads exactly the reachable stored definitions, with distinct keys, so that building the catalog never raises |
| Closure.ClosuresAgree | quantize/persistence/closure.py:24-38 | The loaded catalog has the same reachable pins and the same absent pins as the store it came from |
| Resolution.ResolveFromLoaded | quantize/persistence/closure.py:24-38 | Resolving a document against its loaded catalog gives the same findings and instances as resolving against the whole store |
| Resolution.GatesAreSound | quantize/components/resolve.py:623-657 | A closure that passes the definition gates is complete, acyclic, structurally sound and semantically clean |
| Resolution.ResolvedIsWired | quantize/components/resolve.py:660-698 | Every instance of an accepted resolution is well wired at every depth, with distinct exposed names |
| Resolution.ResolveStrategyComponents | quantize/components/resolve.py:660-698 | Fetch, gate and instantiate, later layers only on clean earlier ones |
| Resolution.RunDefinitionGates | quantize/components/resolve.py:623-657 | Recursion and structural findings of all definitions; registry checks only if these are clean |
| Instantiation.BuildInstance | quantize/components/resolve.py:497-577 | Instantiation over a sound closure terminates and builds the specified instance tree with all parameter findings |
| Instantiation.PinsDescend | quantize/components/resolve.py:551-569 | Along pins of an acyclic closure a height strictly decreases |
| Instantiation.ApplyParams | quantize/components/resolve.py:508-547 | Accepted overrides land on copies of the authored parameters, in name order; unknown and rejected ones are reported and change nothing |
| Overrides.EffectiveIs | quantize/components/resolve.py:508-549 | Under every node and parameter of a component stands the value provided under the last name, in name order, whose exposure is bound to exactly that node and parameter and whose schema accepts it, or else the authored value; no other node or key appears |
| Overrides.OverrideArrives | quantize/components/resolve.py:497-577 | A value passed through re-exposures of nested components, to any depth, is the parameter with which the registered node at the end of the chain is run |
| Overrides.LeafWarmup | quantize/evaluator/plan.py:83-119 | A leaf's warm-up is what its type declares for the parameters it is run with, overrides included |
| TreeWiring.InstanceWired | quantize/components/resolve.py:294-463 | The definition checks add up: every instance built from a clean closure is well wired at every depth |
| TreeWiring.GraphWiredFrom | quantize/components/resolve.py:183-291 | Port, exposure and connectivity checks of one graph imply that it is well wired |
| DefinitionChecks.CheckDefinition | quantize/components/resolve.py:294-463 | The loops report exactly the semantic findings of a definition |
| DefinitionChecks.InputExposuresNone | quantize/components/resolve.py:354-389 | Silent exposed-input checks mean that each exposure hits an existing compatible internal input that nothing else feeds |
| DefinitionChecks.OutputExposuresNone | quantize/components/resolve.py:391-414 | Silent exposed-output checks mean exactly that each exposure hits an existing compatible internal output |
| DefinitionChecks.NodeTypesNone | quantize/components/resolve.py:306-330 | Silent type checks mean exactly that every registered node resolves |
| DefinitionChecks.NamesNone | quantize/components/resolve.py:343-352 | Silent name checks mean exactly that exposed names are distinct |
| PortWiring.BuildPortTables | quantize/components/resolve.py:146-168 | The tables hold the ports of exactly the nodes that resolve |
| PortWiring.DuplicateInputEdges | quantize/components/resolve.py:171-180 | Exactly the input ports that more than one edge targets |
| PortWiring.CheckGraphWiring | quantize/components/resolve.py:183-261 | The loops report exactly the fan-in, port, compatibility and connectivity findings |
| PortWiring.EdgePortsNone | quantize/components/resolve.py:209-242 | An edge between resolved nodes is silent exactly when it connects existing ports of compatible types |
| SemanticCodes.ResolveIs | quantize/validation/semantic.py:40-70 | The lookup finds exactly the type in exactly the version; another version of a known type is unavailable, a type without versions unknown |
| SemanticCodes.DefinitionSemanticFindings | quantize/components/resolve.py:294-463 | Which fault every registry-level finding of a definition names, and that every fault is found: unknown types and versions, repeated exposed names, exposures without a target or of an incompatible type, inputs fed twice or not at all, ports that do not exist or do not fit, broken exposed parameters |
| Preflight.CleanIsWellWired | quantize/evaluator/preflight.py:174-240 | A clean pre-flight means the resolved document is well wired at every depth and has exactly one terminal node |
| Preflight.RunDocumentPreflight | quantize/evaluator/preflight.py:174-240 | The five layers with their gating |
| Preflight.ValidateSemantics | quantize/validation/semantic.py:33-157 | The loops report exactly the semantic findings of the registered nodes |
| Preflight.CheckToplevel | quantize/evaluator/preflight.py:91-171 | The loops report exactly the top-level component wiring findings |
| SemanticCodes.SemanticFindings | quantize/validation/semantic.py:33-157 | Which fault every finding about a document's registered nodes names, and that every fault is found |
| PreflightCodes.ToplevelFindings | quantize/evaluator/preflight.py:91-171 | The same for the wiring at component nodes, each fault at its own node |
| PreflightCodes.TerminalFindings | quantize/evaluator/preflight.py:213-238 | The same for the terminal rule |
| PreflightCodes.InstanceFindings | quantize/components/resolve.py:466-577 | The parameter findings of a component are the faults of the components in its tree, each at its own path: names not exposed, values a schema rejects, effective parameters a node type rejects |
| PreflightCodes.ResolutionFindings | quantize/components/resolve.py:623-698 | Resolution reports what is wrong with the pinned closure; only if nothing is, what is wrong with its definitions against the registry; only if nothing is, what is wrong with the parameters of the component nodes |
| PreflightCodes.PreflightFindings | quantize/evaluator/preflight.py:174-240 | Pre-flight reports exactly the structural faults of the document; only without any, those of its registered nodes and of its resolution; only without any of these, those of its wiring at component nodes and of its terminal |
| PreflightCodes.EntryFindings | quantize/evaluator/evaluate.py:351-366 | Evaluation also refuses an instant by which no session has closed |
| Preflight.TopEdgeFits | quantize/evaluator/preflight.py:119-156 | Semantic validation and top-level wiring together check each half of every edge |
| Preflight.TerminalNodes | quantize/evaluator/preflight.py:83-88 | Exactly the registered nodes of the terminal type |
| FlatDocuments.FlatPreflightIff | quantize/evaluator/preflight.py:174-240 | Pre-flight accepts a document without components exactly when it is structurally sound, its types resolve and take their parameters, its edges connect existing compatible ports, required inputs are fed, no input is fed twice and there is one terminal |
| Warmup.ResolveWarmup | quantize/evaluator/plan.py:83-119 | The recursive walk computes the declared warm-up of every resolving leaf by its path, and the strategy-wide one |
| Warmup.TotalIsLargest | quantize/evaluator/plan.py:119 | It is the largest warm-up declared by any leaf at any depth, or zero |
| AverageWarmup.FirstEvaluationDefinedIff | quantize/evaluator/plan.py:71-77 | The engine running the document of a chain of moving averages, with a close at every session, first evaluates at the session after as many as the longest window less one; that evaluation succeeds, and the last average has a point at its session if and only if at most one window is longer than one session |
| AverageWarmup.WarmupIsWaited | quantize/evaluator/plan.py:83-119 | The resolved warm-up of that document is the longest window less one |
| AverageWarmup.GateOpensIff | quantize/engine/backtest.py:336-358 | The engine's gate declines exactly the sessions before that |
| AverageWarmup.ChainEvaluated | quantize/nodes/transform.py:159-209 | At any session an evaluation of that document with a fresh or no memo succeeds, and the last average has a point there exactly when the sum of the windows less one fits |
| PipelineRuns.PipelineEvaluation | quantize/evaluator/evaluate.py:287-393 | Evaluation of any chain of registered nodes stores stage by stage what each node yields from the one before, and delivers the last value as targets |
| AverageWarmup.ChainDefinedIff | quantize/nodes/transform.py:185-199 | A chain of averages has a point at a session exactly when the windows before it, each less one, fit |
| Counterexamples.TwoWindowsTooEarly | quantize/evaluator/plan.py:71-77 | A run of four sessions with two windows of two evaluates first at the second session, where the second average has no point |
| Market.CheckCalendar | quantize/market/calendar.py:52-64 | Comparing each session with the previous one accepts exactly the ordered, non-overlapping calendars |
| Market.NextSessionIsNext | quantize/market/calendar.py:87-96 | The session after a session is its neighbour in the calendar |
| Market.VisibilityMonotone | quantize/market/data.py:112-142 | What was visible stays visible |
| Market.VisibleClosesMember | quantize/market/data.py:112-142 | A close is shown exactly when it is available by the instant |
| Lookups.ClosesShown | quantize/market/data.py:112-142 | A view shows exactly the closes of the asset's observations that are available by its instant, under their dates, in date order |
| Lookups.LatestCloseIs | quantize/market/data.py:268-275 | The latest close is that of the last dated observation available by the instant |
| Lookups.SessionCloseIs | quantize/market/data.py:277-281 | A session's close is that of its own observation, and only while no later one is visible |
| Lookups.OpenPriceIs | quantize/market/data.py:283-290 | An open is that of the observation of the very date, available by the instant |
| Lookups.PlanningPrices | quantize/engine/backtest.py:125-134 | A plan is priced, for exactly the assets in question with an observation of that session available by its close, at that close |
| Cursor.MarketDataCursor.LatestClose | quantize/market/data.py:268-275 | At any instant, forward or backward, with arrivals in any order, the answer is the latest point of the as-of view |
| Cursor.MarketDataCursor.SessionClose | quantize/market/data.py:277-281 | The same for the close of one session |
| Cursor.MarketDataCursor.OpenPrice | quantize/market/data.py:283-290 | The same for the open of one session |
| Cursor.LatestIsAsOf | quantize/market/data.py:244-275 | The newest incorporated close is the last visible one |
| Cursor.OpenIsAsOf | quantize/market/data.py:244-290 | The incorporated opens are the visible ones |
| Memos.EvaluationMemo.AssertMonotonic | quantize/runtime/binding.py:60-67 | Refuses exactly a strictly earlier instant and otherwise remembers it |
| AverageLoops.EvaluateAverage | quantize/nodes/transform.py:159-209 | The node's loops over the memo object: plain averages without one; with one the replayed averages, and only the node's own slots change, to exactly the specified ones |
| Means.AverageMeans | quantize/nodes/transform.py:185-204 | An average has a point for exactly the sessions at which the window is complete, and the point times the window is the sum of the series over the window's sessions |
| Means.MeanBetween | quantize/nodes/transform.py:195-196 | A point lies between the least and the greatest value of its window |
| Means.ConstantAverages | quantize/nodes/transform.py:195-196 | A constant series averages to its constant |
| Means.AverageNodeMeans | quantize/nodes/transform.py:159-209 | The node, without a memo or with one whose points are exact, delivers exactly those means for exactly the assets of its input, and its trace names the assets with and without a point |
| Means.PriceNodeCloses | quantize/nodes/data.py:54-77 | The price node delivers, for exactly the assets asked for, the closes available by the instant, and reports the assets without any |
| SeriesNodes.AverageTransparentIff | quantize/nodes/transform.py:159-209 | The node does with a memo what it does without one, if and only if every cached point of its assets is the mean of its window |
| SeriesNodes.PriceKeepsGrowth | quantize/nodes/data.py:57-76 | What the price node produces only grows with the instant |
| SeriesNodes.AverageKeepsGrowth | quantize/nodes/transform.py:159-209 | So does what the average produces, if its input does |
| Transparency.EvaluationTransparent | quantize/evaluator/evaluate.py:187-195 | An evaluation in which no invocation shows its memo is, store, invocations, trace and failure, the evaluation without a memo, at any component depth |
| Transparency.RunTransparentIff | quantize/evaluator/evaluate.py:187-195 | An evaluation with the memo stores what the one without it stores, if and only if every average's slots are exact for the series it is delivered |
| Growth.EvaluationsGrow | quantize/evaluator/evaluate.py:115-284 | Two memo-free evaluations of one document at two instants: if its nodes keep growth, every series delivered anywhere at the earlier instant is extended by the one delivered there at the later |
| MemoRuns.RunPlain | quantize/engine/backtest.py:360-369 | Run invariant: when only averages use the memo and what reaches them only grows, every state is the memo-free one, and every memo entry is a mean that an earlier evaluation of the window computed at that path |
| MemoRuns.MemoIsInvisible | quantize/engine/backtest.py:191-194 | Hence the backtest is the backtest without a memo |
| MemoRuns.StandardCatalogIsSafe | quantize/nodes/transform.py:163-167 | For every document, dataset and window over a catalog where series come from the price node and averages, and nothing else uses the memo, the condition holds |
| MovingAverage.ReplayExactIff | quantize/nodes/transform.py:185-199 | A cache is invisible if and only if every cached point is the mean of its window |
| MovingAverage.SlotStaysValid | quantize/nodes/transform.py:163-167 | A cache that agreed once agrees for ever, as long as its source only grows |
| MovingAverage.AveragesExtend | quantize/nodes/transform.py:163-167 | An average of a growing source grows |
| MovingAverage.RevisedSeriesIsNotTransparent | quantize/nodes/transform.py:163-167 | A source that revises a value would make the cache visible |
| Values.NewTargets | quantize/runtime/values.py:218-231 | Targets are accepted exactly when assets are distinct, weights non-negative and their sum at most one within a billionth, and carry exactly the given weights |
| Values.EntriesKept | quantize/runtime/values.py:218-231 | Distinct entries are all kept, with their own weights |
| Values.CheckHistory | quantize/runtime/values.py:163-174 | A history is accepted exactly when its dates strictly increase |
| Portfolio.NewPortfolio | quantize/engine/state.py:33-46 | A state is accepted exactly without negatives and duplicates; zero quantities disappear |
| Reconciliation.ReconcileOrders | quantize/engine/reconcile.py:72-178 | The loops compute the plan: atomic price refusal, else value, rows, orders, cash |
| PlanNumbers.PlanSays | quantize/engine/reconcile.py:104-141 | The plan in numbers: value is cash plus holdings at the prices, target cash is the uninvested share of it, and every held or targeted asset, in order, has a row whose target is worth its weight, whose delta leads there, and which trades exactly if it liquidates or is worth more than a billionth of the larger of the value and one |
| PlanNumbers.OrdersSay | quantize/engine/reconcile.py:142-155 | There is an order for exactly the rows that trade, of exactly the delta |
| PlanNumbers.OrdersInOrder | quantize/engine/reconcile.py:157-167 | Sells come before buys, each side in asset order |
| PlanNumbers.CashSays | quantize/engine/reconcile.py:169-177 | Projected cash is what the trading rows leave, and misses target cash by at most that negligible amount for every row left as dust |
| PlanNumbers.RefusalSays | quantize/engine/reconcile.py:83-102 | A plan is refused exactly when a held or targeted asset has no price or one that is not positive, and the findings name exactly these |
| Rebalance.PlannedIffPriced | quantize/engine/reconcile.py:83-112 | A plan exists exactly when every held or targeted asset has a valid price |
| PlanProperties.PlanOrdersSound | quantize/engine/reconcile.py:125-167 | Each asset yields at most one order and no sell exceeds the held quantity |
| PlanProperties.RowHasOrder | quantize/engine/reconcile.py:142-155 | Every buy or sell row has its order |
| PlanProperties.PlanOrder | quantize/engine/reconcile.py:142-155 | Every order comes from a row of a held or targeted, priced asset |
| PlanProperties.PlannedCashNearTarget | quantize/engine/reconcile.py:169-177 | Projected cash is within one dust threshold per dust row of target cash |
| Fills.OrderFaultsNone | quantize/engine/fills.py:81-118 | Validation is silent exactly when no side and asset repeats and every order by itself is valid |
| FillLoops.ApplyOrdersAtOpen | quantize/engine/fills.py:47-183 | The loops compute the fill event, reading opens through the cursor; the negative-cash raise is never reached |
| FillProperties.AllOrNothing | quantize/engine/fills.py:56-118 | An event applies exactly when costs are supported, keys are unique, opens are visible and sells are covered |
| FillProperties.ValueDropsByCosts | quantize/engine/fills.py:120-183 | Portfolio value at the fill prices drops by exactly the sum of costs |
| Charges.FillsAreCharged | quantize/engine/fills.py:78-180 | Every fill answers an order at the open of the fill session and is charged bps ten-thousandths of its notional; a sell pays out the rest, a buy takes both from cash |
| Charges.ValueDropsByRate | quantize/engine/fills.py:120-183 | Portfolio value at the fill prices drops by bps ten-thousandths of what was traded |
| Charges.FillsBalance | quantize/engine/fills.py:120-183 | Cash and every position after the event differ from before by exactly what the fills say |
| Charges.ShortfallSpendsAll | quantize/engine/fills.py:149-169 | A buy is cut short only when it takes all the cash that is left |
| Charges.RejectionSays | quantize/engine/fills.py:56-118 | Orders are refused for unsupported costs, or for exactly the faults they have: no open, an oversold position, a repeated side and asset |
| FillProperties.FillsMatchOrders | quantize/engine/fills.py:124-180 | One fill per order, sells before buys in asset order, none above its order; after the first scaled buy every buy is scaled to zero |
| FillProperties.OutcomeIgnoresListOrder | quantize/engine/fills.py:84-183 | Permuting the order list changes nothing, accepted or refused |
| Fills.FilledIsSettled | quantize/engine/fills.py:149-169 | Cash stays non-negative and kept quantities positive |
| Rebalance.RebalanceReachesTargets | quantize/engine/fills.py:124-183 | Filling a plan with non-negative projected cash at planning prices without costs scales no buy, leaves exactly the projected cash, puts every traded asset at its target quantity and leaves every other one alone |
| Rebalance.RebalanceKeepsValue | quantize/engine/fills.py:124-183 | And portfolio value is unchanged |
| Rebalance.RebalanceFixpoint | quantize/engine/reconcile.py:114-178 | And planning again emits no order |
| Waterfall.MaxWeight | quantize/nodes/risk.py:72-122 | The loop ends within as many rounds as there are assets; weights end at most cap plus tolerance; the total never rises, and a remainder means every positive weight reached the cap; no weight that was not above the cap falls; order survives within twice the tolerance; proportions survive among uncapped weights with room |
| Waterfall.CappedIsValid | quantize/nodes/risk.py:122 | The result is again a valid allocation |
| Schedule.ScheduledSessions | quantize/engine/schedule.py:27-39 | The firing dates, by comparing neighbours |
| Schedule.FiresOnLastOfPeriod | quantize/engine/schedule.py:27-39 | For a monotone period key that is exactly the sessions with no later session in the same period |
| SessionRecords.GateIs | quantize/engine/backtest.py:336-358 | At session i of the calendar, if the schedule fires: the warm-up note if i + 1 sessions do not exceed it, else the no-next-session note at the last session, else the outside-window note if the next one lies past the bound, else an evaluation that fills in the next session |
| SessionRecords.StepIs | quantize/engine/backtest.py:281-431 | One session told by observations and positions in the calendar: dated fills of the orders due or their refusal, one dated valuation, the note or evaluation that is due, its record, queue and trace events, and where and why it stops |
| Marks.MarkSays | quantize/engine/backtest.py:92-122 | Marking fails at the first holding, in asset order, without a close; otherwise the value is cash plus the holdings at their latest available closes, and the stale marks are exactly the holdings whose close is of another date, with that date, in asset order |
| Marks.ValueIsUnique | quantize/engine/backtest.py:92-122 | A portfolio has only one such value at an instant |
| Sessions.SelectWindow | quantize/engine/backtest.py:78-89 | The sessions inside the bounds, in order |
| Sessions.MarkHoldings | quantize/engine/backtest.py:92-122 | The mark read through the cursor is the mark on the as-of view |
| Sessions.ReadCloses | quantize/engine/backtest.py:125-134 | The closes of exactly this session on the as-of view |
| Sessions.SessionEngine.Step | quantize/engine/backtest.py:281-431 | One session: the engine's whole new state, memo included, and failure; the memo never refuses when sessions are fed in order |
| Sessions.SessionEngine.CheckEntry | quantize/engine/backtest.py:256-279 | Ready exactly when components resolve and the cost model is supported; the warm-up is then the resolved one |
| Sessions.RunBacktest | quantize/engine/backtest.py:434-465 | The run's result, including the partial records of a failed run |
| Results.BacktestOkIff | quantize/engine/backtest.py:434-465 | A backtest reports success exactly when components resolve, costs are supported and no session of the window fails; its bounds are the first and last sessions of the calendar within the given ones |
| Results.OkReports | quantize/engine/backtest.py:233-252 | A successful backtest has no diagnostics, exactly one valuation per session of the window, dated to it, in order, each the worth of the portfolio that session left at its close, the records of the last state, and no queued order |
| Results.FailedReports | quantize/engine/backtest.py:233-252 | A failed backtest has diagnostics: those of the entry check over the initial state, or those of the first session that fails over the records up to that failure |
| Results.RunSays | quantize/engine/backtest.py:455-465 | Every session of a run goes on from the state the previous one left, and a failed one is the last |
| Results.ValuationsSay | quantize/engine/backtest.py:327-334 | In every reachable state: one valuation per session so far, each the worth of the portfolio that session left |
| Results.NotesSay | quantize/engine/backtest.py:336-358 | In every reachable state the notes are exactly those due at the sessions so far, in order |
| Results.EvaluationsSay | quantize/engine/backtest.py:360-431 | In every reachable state there is one record for every evaluation that was due, in order, with the plan of its targets for that session's portfolio and closes |
| Results.WindowSays | quantize/engine/backtest.py:78-89 | The window is exactly the sessions of the calendar within the bounds, in order |
| Replay.ReplayEqualsBacktest | quantize/engine/forward.py:118-217 | Driving advances to exhaustion, with snapshot and resume into fresh engines with empty memos at any set of session boundaries, gives the backtest's result field for field, failures included, when only averages use the memo and what reaches them only grows |
| Replay.StandardReplayEqualsBacktest | quantize/engine/forward.py:118-217 | It does for every document, dataset and window over a catalog like the program's own |
| Replay.UncutReplayEqualsBacktest | quantize/engine/forward.py:118-156 | Without cuts it does whatever the nodes do with the memo |
| Counterexamples.RevisedSeriesBreaksReplay | quantize/nodes/transform.py:163-204 | With a pure node that revises past points in front of an average, one cut makes the replay's result differ from the backtest's |
| Replay.AdvancesExhaust | quantize/engine/forward.py:115-126 | As many advances as the window has sessions exhaust the replay, wherever it is cut |
| Replay.ResumeIsInvisible | quantize/engine/forward.py:160-217 | A cut at any point of a replay, discarding cursor and memo, changes nothing but the memo now or after any further actions |
| Replay.DriveFaithful | quantize/engine/forward.py:118-217 | At every point the replay is where the memo-free run is after the same number of sessions, with a justified memo |
| Replay.ForwardReplay.Advance | quantize/engine/forward.py:118-143 | Feeds exactly the next session, reports it, and does nothing once exhausted |
| Replay.ForwardReplay.Snapshot | quantize/engine/forward.py:160-174 | Everything but the memo, and nothing changes |
| Replay.ForwardReplay.Resume | quantize/engine/forward.py:176-217 | A fresh engine, cursor and memo in the checkpoint's state; a dead run stays dead |
| Replay.ForwardReplay.Result | quantize/engine/forward.py:147-156 | The facts so far, assembled as the backtest assembles them |
| Results.ReplayReports | quantize/engine/forward.py:147-156 | A replay reports success exactly while it has no failure, the diagnostics of its failure, and its records so far |
| Results.ReplaySoFar | quantize/engine/forward.py:118-217 | However it was cut, a replay reports success exactly when the run may start and none of the sessions fed so far fails, with the records of the run after as many sessions |
| RunTheorems.RunSettles | quantize/engine/backtest.py:286-325 | In every reachable state pending orders are absent, or they are the plan of the session just closed and dated to exactly the next session of the window |
| RunTheorems.OpenInReachable | quantize/engine/backtest.py:286-325 | The queue is empty after every open, hence at every evaluation instant; a fill event fails only on a missing open price |
| RunTheorems.FillsAnswerPreviousEvaluation | quantize/engine/backtest.py:286-325 | The fills of a session answer one for one the orders of the immediately preceding session's evaluation, sells in full and buys up to the order |
| RunTheorems.OkRunEndsUnqueued | quantize/engine/backtest.py:347-358 | An ok run ends with an empty queue |
| RunTheorems.MarkInReachable | quantize/engine/backtest.py:327-334 | Marking fails exactly when a held asset has no visible close, which can only be at the first session of the window |
| RunTheorems.RunFailsAsExpected | quantize/engine/backtest.py:281-431 | A run ends only on a missing open price for queued orders, on a missing valuation price at the first session, on a failed evaluation or on a failed reconciliation; never on an invalid order or on costs |
| RunTheorems.CleanRunEnds | quantize/engine/backtest.py:281-431 | A run of a document that pre-flight accepts ends only on missing opens for queued orders, on a missing valuation price at its first session, on an evaluation that failed inside a node, or that reported the terminal invalid because it cannot receive targets, or on a refused plan |
| RunTheorems.CloseInReachable | quantize/engine/backtest.py:336-431 | Orders are queued for exactly the next session of the window |
| RunInvariants.NextIsInWindow | quantize/engine/backtest.py:347-358 | The next calendar session inside the bound is the next session of the window |
| RunInvariants.FillsAnswerOrders | quantize/engine/fills.py:124-180 | Every order of a sound plan has exactly one fill on its own side and asset |
| RunInvariants.FilledAssets | quantize/engine/fills.py:124-183 | After fills only previously held and bought assets are held |
| LookAhead.NoLookAhead | quantize/engine/backtest.py:281-431 | Two datasets with the same calendar and assets that agree on every observation available by a session's close drive the engine to identical state, queue, valuations, evaluations, fills, notes, trace and failure after that session |
| LookAhead.ViewsAgree | quantize/market/data.py:112-142 | Such datasets show the same view at every instant up to that close |
| LookAhead.TracingIsPassive | quantize/engine/backtest.py:202-217 | A run without trace collection has the same state, records and failure |
| TraceTrees.BuildTraceTrees | quantize/tracing/tree.py:64-108 | The grouping loops build the specified trees |
| TraceTrees.TreesConserve | quantize/tracing/tree.py:76-106 | Each event is held exactly as often as it was emitted, by the tree of its own instant, in the node roots or the engine root, and by no other tree |
| TraceTrees.ForestConserves | quantize/tracing/tree.py:84-103 | The node roots of an instant hold its node events, each exactly once |
| TraceTrees.ForestShows | quantize/tracing/tree.py:84-103 | Every tree node holds exactly the events of its own component path and node id, in emission order; siblings are distinct and in order of first emission, at every depth |
| TraceTrees.ForestLocates | quantize/tracing/tree.py:84-103 | Every tree node stands at its own component path and holds only events emitted there by its own node, and none is lost |
| TraceTrees.TreesAscend | quantize/tracing/tree.py:80-107 | Trees are strictly ascending by instant and cover every instant at which something was emitted |

## Left out

- IEEE rounding: arithmetic is over reals, so the negative-zero canonicalisation and the rounding-residue clamp of fills have nothing to do; no floating-point error bound is claimed.
- Text: identifiers, tickers and dates are ordered integers; message texts, document locations and wall-clock values are not modelled.
- Order of diagnostics: the program sorts them before reporting; findings are sets in the validators and multisets in the engine. Two findings with the same code, path and subject are one finding in a validator.
- The representative node of a cycle diagnostic: a cycle is one finding whatever node the search reports it at; which cycle `FindCycle` returns is not pinned down beyond being a simple one.
- The heap and the priority queue of the planner are a set with its minimum; the sorted breadth-first queue of the fetch drops repeated pins when it is filled rather than when they are popped.
- JSON, Pydantic and JSON Schema validation: a parameter schema is a predicate together with whether it is itself well formed; several schema issues of one node are one finding.
- Descriptor registry and implementation catalog: one exact lookup by type and version; registration, descriptors' documentation and trace schemas are left out.
- The terminal type's name is an arbitrary fixed type id.
- The `None` component catalog that raises at the seam: a catalog is always supplied, empty if need be. Run ids and the single-definition diagnosis used when saving a component are left out.
- Document wrappers: metadata, universes and execution policy apart from the cost rate; the schedule is part of the run's configuration.
- Documents with duplicate node ids or undeclared references in front of component resolution: structural validation rejects them, and the engine's own entry check assumes that they have been rejected.
- Nodes other than the price node, the moving average and the maximum weight: they are arbitrary functions of place, parameters, inputs, view and their own part of the memo. A node's part of the memo is the slots under its own path; nodes that reach for another path's slots are not modelled.
- A moving average whose window is below one raises: parameter validation rejects it before evaluation.
- Grouping moves nodes of the document's own graph and exposes ports only; nodes inside a component definition are not regrouped in place, and no parameters are exposed.
- Node trace emissions are part of a node's result; a sink call that raises is the node raising.
- Closure.FetchDefinitionClosure: starts from nothing fetched, as strategy resolution does; the non-empty seed is used only by the single-definition diagnosis, which is left out.
- `isocalendar`: a schedule's period key is any function of the date, monotone where that matters.
- Trace trees are built as values: the program nests mutable builders and freezes them at the end; update in place and aliasing of those builders are not modelled. The check that all events carry one run id is left out.
- Metrics and summaries of a result (returns, drawdown): functions of the valuations, which are compared.
- SQLite, SHA-256, the HTTP service, the web editor and the code generators. The component store is a map from key to definition.
