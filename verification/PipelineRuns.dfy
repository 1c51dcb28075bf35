/** What a pipeline computes, stage by stage. */
module PipelineRuns {
  import opened Closure
  import opened Collections
  import opened Compositionality
  import opened Diagnostics
  import opened Documents
  import opened Evaluator
  import opened Execution
  import opened Instantiation
  import opened Market
  import opened Pipelines
  import opened Planning
  import opened Portfolio
  import opened Preflight
  import opened StrategyEvaluation
  import opened Typing

  /** What reaches a stage, if its predecessors hand on vs. */
  function Reaches(stages: seq<Stage>, vs: seq<Value>, k: nat): map<PortName, Value>
    requires k < |stages| && k <= |vs|
  {
    if k == 0 then map[] else map[stages[k - 1].out := vs[k - 1]]
  }

  ghost function ResultAt(cat: Catalog, context: Context, stages: seq<Stage>, vs: seq<Value>, k: nat): NodeResult
    requires k < |stages| && k <= |vs| && TypeAt(cat, stages[k]).Resolved?
  {
    TypeAt(cat, stages[k]).implementation.evaluate(context.Invoked([k], stages[k].params, Reaches(stages, vs, k)))
  }

  /** Stage k hands on vs[k]; the last one nothing. */
  ghost predicate Yields(cat: Catalog, context: Context, stages: seq<Stage>, vs: seq<Value>, k: nat)
    requires PipelineOk(cat, stages) && |vs| + 1 == |stages| && k < |stages| && StageFits(cat, stages, k)
  {
    var i, outcome := TypeAt(cat, stages[k]).implementation, ResultAt(cat, context, stages, vs, k).outcome;
    if k < |vs| then outcome == Outputs(map[stages[k].out := Runtime(vs[k])]) && PortTypeOf(vs[k]) == i.outputs[0].portType
    else outcome == Outputs(map[])
  }

  ghost predicate AllYield(cat: Catalog, context: Context, stages: seq<Stage>, vs: seq<Value>)
    requires PipelineOk(cat, stages) && |vs| + 1 == |stages|
  {
    forall k :: 0 <= k < |stages| ==> StageFits(cat, stages, k) && Yields(cat, context, stages, vs, k)
  }

  function StoreUpTo(stages: seq<Stage>, vs: seq<Value>, k: nat): Store
    requires k <= |vs| <= |stages|
  {
    if k == 0 then map[] else StoreUpTo(stages, vs, k - 1)[([k - 1], stages[k - 1].out) := vs[k - 1]]
  }

  lemma {:induction false} StoredStage(stages: seq<Stage>, vs: seq<Value>, k: nat, j: nat)
    requires j < k <= |vs| <= |stages|
    ensures Get(StoreUpTo(stages, vs, k), ([j], stages[j].out)) == Some(vs[j])
  {
    if j < k - 1 {
      StoredStage(stages, vs, k - 1, j);
      assert [j][0] != [k - 1][0];
    }
  }

  /* ---- the evaluation order ---- */

  function From(a: nat, n: nat): (r: set<int>)
    requires a <= n
    ensures forall x :: x in r <==> a <= x < n
    decreases n - a
  {
    if a == n then {} else {a} + From(a + 1, n)
  }

  lemma {:induction false} PathPlan(pairs: set<(int, int)>, a: nat, n: nat)
    requires a <= n && forall x, y :: (x, y) in pairs <==> 0 <= x < n - 1 && y == x + 1
    ensures PlanFrom(From(a, n), pairs) == seq(n - a, k requires 0 <= k < n - a => a + k)
    decreases n - a
  {
    var todo := From(a, n);
    if a == n {
      assert todo == {};
    } else {
      forall m | m in todo ensures !Feeds(pairs, m, a) {
        assert (m, a) in pairs <==> 0 <= m < n - 1 && a == m + 1;
      }
      assert a in Ready(todo, pairs);
      assert MinOf(Ready(todo, pairs)) == a;
      assert todo - {a} == From(a + 1, n);
      PathPlan(pairs, a + 1, n);
    }
  }

  function Count(n: nat): (r: seq<NodeId>)
    ensures |r| == n && forall k :: 0 <= k < n ==> r[k] == k
  {
    seq(n, k => k)
  }

  /** The planner runs a pipeline from front to end. */
  lemma PipelinePlan(stages: seq<Stage>)
    ensures LeastPlan([], Graph(NodesOf(stages), EdgesOf(stages))) == Count(|stages|)
  {
    hide NodesOf, EdgesOf;
    PipelineNodes(stages);
    PipelinePairs(stages);
    assert NodeIds(NodesOf(stages)) == From(0, |stages|);
    PathPlan(EdgePairs(EdgesOf(stages)), 0, |stages|);
  }

  /* ---- one stage ---- */

  function PipelineRoot(stages: seq<Stage>, bps: real): Instance {
    RootOf(PipelineDocument(stages, bps), map[])
  }

  lemma StageIs(stages: seq<Stage>, bps: real, k: nat)
    requires k < |stages|
    ensures var root := PipelineRoot(stages, bps);
      k in root.Ids() && NodeOf(root.Nodes(), k) == Registered(k, stages[k].typeId, 0, stages[k].params) && root.ParamsOf(k) == stages[k].params
  {
    hide NodeOf;
    PipelineNodes(stages);
  }

  lemma {:induction false} NothingGathered(w: Wiring, store: Store, node: NodeId, wants: seq<Want<PortName>>)
    requires forall k :: 0 <= k < |wants| ==> !wants[k].required && InputValue(w, store, node, wants[k].port).None?
    ensures Gather(w, store, node, wants) == Inputs(map[])
  {
    if wants != [] {
      NothingGathered(w, store, node, wants[..|wants| - 1]);
    }
  }

  lemma OneGathered(w: Wiring, store: Store, node: NodeId, wants: seq<Want<PortName>>, v: Value)
    requires |wants| == 1 && wants[0].slot == wants[0].port && InputValue(w, store, node, wants[0].port) == Some(v)
    ensures Gather(w, store, node, wants) == Inputs(map[wants[0].port := v])
  {
    assert wants[..0] == [];
    assert Gather(w, store, node, wants[..0]) == Inputs(map[]);
  }

  /** A stage is handed what its predecessor stored. */
  lemma StageGathers(cat: Catalog, stages: seq<Stage>, bps: real, vs: seq<Value>, k: nat)
    requires PipelineOk(cat, stages) && |vs| + 1 == |stages| && k < |stages| && StageFits(cat, stages, k)
    ensures Gather(Wiring(PipelineRoot(stages, bps).Edges(), map[], []), StoreUpTo(stages, vs, k), k, Wants(TypeAt(cat, stages[k]).implementation.inputs))
            == Inputs(Reaches(stages, vs, k))
  {
    hide Gather, SourceOf, EdgesOf, StoreUpTo, PipelineOk;
    var w, store, ports := Wiring(EdgesOf(stages), map[], []), StoreUpTo(stages, vs, k), TypeAt(cat, stages[k]).implementation.inputs;
    var wants := Wants(ports);
    if k == 0 {
      forall j | 0 <= j < |wants| ensures !wants[j].required && InputValue(w, store, k, wants[j].port).None? {
        PipelineSource(stages, k, wants[j].port);
        assert ports[j] in ports;
      }
      NothingGathered(w, store, k, wants);
    } else {
      PipelineSource(stages, k, wants[0].port);
      StoredStage(stages, vs, k, k - 1);
      assert [] + [k - 1] == [k - 1];
      OneGathered(w, store, k, wants, vs[k - 1]);
    }
  }

  lemma SortedOne(x: int)
    ensures Sorted({x}) == [x] && Sorted({}) == []
  {
    assert |{x}| == 1;
    var s := Sorted({x});
    assert s[0] in s;
  }

  lemma WritesNothing(run: Run, here: Path)
    ensures WriteOutputs(run, here, map[], map[], Sorted({})) == run
  {
    SortedOne(0);
  }

  lemma WritesOne(run: Run, here: Path, name: PortName, t: PortType, v: Value)
    requires run.failure.None? && PortTypeOf(v) == t
    ensures WriteOutputs(run, here, map[name := t], map[name := Runtime(v)], Sorted({name})) == run.Write((here, name), v)
  {
    SortedOne(name);
    assert [name][..0] == [];
    var declared, ports: map<PortName, Produced> := map[name := t], map[name := Runtime(v)];
    assert WriteOutputs(run, here, declared, ports, []) == run;
  }

  /** What is stored once stage k has run. */
  function Held(vs: seq<Value>, k: nat): (n: nat)
    ensures n <= |vs|
  {
    if k <= |vs| then k else |vs|
  }

  /** One stage: it stores what it yields and leaves its cache. */
  lemma StageRuns(cat: Catalog, context: Context, stages: seq<Stage>, bps: real, vs: seq<Value>, k: nat, run: Run)
    requires PipelineOk(cat, stages) && |vs| + 1 == |stages| && k < |stages| && AllYield(cat, context, stages, vs)
    requires run.failure.None? && run.store == StoreUpTo(stages, vs, k)
    requires Runnable(LeastPlan, PipelineRoot(stages, bps), []) && k in PipelineRoot(stages, bps).Ids()
    requires TypeAt(cat, stages[k]).Resolved?
    ensures var after := ExecNode(Planned(cat, context), PipelineRoot(stages, bps), [], map[], k, run);
      && after.failure.None? && after.store == StoreUpTo(stages, vs, Held(vs, k + 1))
      && after.memo == if context.memo.Some? then run.memo[[k] := ResultAt(cat, context, stages, vs, k).cache] else run.memo
  {
    hide Gather, StoreUpTo, Runnable, PipelineRoot, WriteOutputs, PipelineOk, NodeOf, Called;
    var sc, root := Planned(cat, context), PipelineRoot(stages, bps);
    assert StageFits(cat, stages, k) && Yields(cat, context, stages, vs, k);
    StageIs(stages, bps, k);
    StageGathers(cat, stages, bps, vs, k);
    StageInvoked(cat, context, stages, vs, k, run);
    var n := NodeOf(root.Nodes(), k);
    var i := TypeAt(cat, stages[k]).implementation;
    assert ExecNode(sc, root, [], map[], k, run) == RunRegistered(sc, root, [], map[], n, run);
    assert RunRegistered(sc, root, [], map[], n, run) == Invoke(sc, i, n, [], stages[k].params, Reaches(stages, vs, k), run);
  }

  lemma StageInvoked(cat: Catalog, context: Context, stages: seq<Stage>, vs: seq<Value>, k: nat, run: Run)
    requires PipelineOk(cat, stages) && |vs| + 1 == |stages| && k < |stages| && StageFits(cat, stages, k) && Yields(cat, context, stages, vs, k)
    requires run.failure.None? && run.store == StoreUpTo(stages, vs, k)
    ensures var n := Registered(k, stages[k].typeId, 0, stages[k].params);
      var after := Invoke(Planned(cat, context), TypeAt(cat, stages[k]).implementation, n, [], stages[k].params, Reaches(stages, vs, k), run);
      && after.failure.None? && after.store == StoreUpTo(stages, vs, Held(vs, k + 1))
      && after.memo == if context.memo.Some? then run.memo[[k] := ResultAt(cat, context, stages, vs, k).cache] else run.memo
  {
    hide PipelineOk, StoreUpTo, Invoke;
    var n, i := Registered(k, stages[k].typeId, 0, stages[k].params), TypeAt(cat, stages[k]).implementation;
    assert [] + [k] == [k];
    if k < |vs| {
      InvokesOne(Planned(cat, context), i, n, Reaches(stages, vs, k), run, vs[k]);
      StoredNext(stages, vs, k);
    } else {
      InvokesNone(Planned(cat, context), i, n, Reaches(stages, vs, k), run);
    }
  }

  lemma StoredNext(stages: seq<Stage>, vs: seq<Value>, k: nat)
    requires k < |vs| <= |stages|
    ensures StoreUpTo(stages, vs, k + 1) == StoreUpTo(stages, vs, k)[([k], stages[k].out) := vs[k]]
  {
  }

  lemma InvokesOne(sc: Setting, i: Implementation, n: Node, inputs: map<PortName, Value>, run: Run, v: Value)
    requires n.Registered? && run.failure.None? && |i.outputs| == 1 && PortTypeOf(v) == i.outputs[0].portType
    requires i.evaluate(sc.context.Invoked([n.id], n.params, inputs)).outcome == Outputs(map[i.outputs[0].name := Runtime(v)])
    ensures var after := Invoke(sc, i, n, [], n.params, inputs, run);
      && after.failure.None? && after.store == run.store[([n.id], i.outputs[0].name) := v]
      && after.memo == if sc.context.memo.Some? then run.memo[[n.id] := i.evaluate(sc.context.Invoked([n.id], n.params, inputs)).cache] else run.memo
  {
    hide WriteOutputs, OutputTypes, Sorted;
    assert [] + [n.id] == [n.id];
    var called := Called(sc, n, [], n.params, inputs, i.evaluate(sc.context.Invoked([n.id], n.params, inputs)), run);
    var name := i.outputs[0].name;
    SingleOutput(i.outputs);
    WritesOne(called, [n.id], name, i.outputs[0].portType, v);
    assert OutputTypes(i.outputs).Keys == {name};
    assert map[name := Runtime(v)].Keys == {name};
  }

  lemma InvokesNone(sc: Setting, i: Implementation, n: Node, inputs: map<PortName, Value>, run: Run)
    requires n.Registered? && run.failure.None? && i.outputs == []
    requires i.evaluate(sc.context.Invoked([n.id], n.params, inputs)).outcome == Outputs(map[])
    ensures var after := Invoke(sc, i, n, [], n.params, inputs, run);
      && after.failure.None? && after.store == run.store
      && after.memo == if sc.context.memo.Some? then run.memo[[n.id] := i.evaluate(sc.context.Invoked([n.id], n.params, inputs)).cache] else run.memo
  {
    hide WriteOutputs, OutputTypes, Sorted;
    assert [] + [n.id] == [n.id];
    var called := Called(sc, n, [], n.params, inputs, i.evaluate(sc.context.Invoked([n.id], n.params, inputs)), run);
    NoOutputs(i.outputs);
    WritesNothing(called, [n.id]);
  }

  lemma NoOutputs(ports: seq<OutputPort>)
    requires ports == []
    ensures OutputTypes(ports) == map[]
  {
  }

  /* ---- the whole pipeline ---- */

  ghost predicate CachesLeft(cat: Catalog, context: Context, stages: seq<Stage>, vs: seq<Value>, memo: Memo, k: nat)
    requires PipelineOk(cat, stages) && |vs| + 1 == |stages| && k <= |stages|
  {
    forall j :: 0 <= j < k ==> StageFits(cat, stages, j) && [j] in memo && memo[[j]] == ResultAt(cat, context, stages, vs, j).cache
  }

  lemma {:induction false} StagesRun(cat: Catalog, context: Context, stages: seq<Stage>, bps: real, vs: seq<Value>, k: nat)
    requires PipelineOk(cat, stages) && |vs| + 1 == |stages| && k <= |stages| && AllYield(cat, context, stages, vs)
    requires Runnable(LeastPlan, PipelineRoot(stages, bps), []) && forall id :: id in Count(|stages|)[..k] ==> id in PipelineRoot(stages, bps).Ids()
    ensures var r := ExecNodes(Planned(cat, context), PipelineRoot(stages, bps), [], map[], Count(|stages|)[..k], context.Start());
      && r.failure.None? && r.store == StoreUpTo(stages, vs, Held(vs, k))
      && (context.memo.Some? ==> CachesLeft(cat, context, stages, vs, r.memo, k))
  {
    hide ExecNode, Runnable, PipelineRoot, StoreUpTo, AllYield, PipelineOk, ResultAt;
    if k > 0 {
      var order := Count(|stages|);
      assert order[..k][..k - 1] == order[..k - 1];
      assert forall id :: id in order[..k - 1] ==> id in order[..k];
      StagesRun(cat, context, stages, bps, vs, k - 1);
      StageIs(stages, bps, k - 1);
      assert StageFits(cat, stages, k - 1) by { YieldFits(cat, context, stages, vs, k - 1); }
      var before := ExecNodes(Planned(cat, context), PipelineRoot(stages, bps), [], map[], order[..k - 1], context.Start());
      StageRuns(cat, context, stages, bps, vs, k - 1, before);
      assert order[..k][k - 1] == k - 1;
      var after := ExecNode(Planned(cat, context), PipelineRoot(stages, bps), [], map[], k - 1, before);
      if context.memo.Some? {
        forall j | 0 <= j < k ensures StageFits(cat, stages, j) && [j] in after.memo && after.memo[[j]] == ResultAt(cat, context, stages, vs, j).cache {
          if j < k - 1 { assert [j][0] != [k - 1][0]; }
        }
      }
    } else {
      NothingStored(stages, vs);
    }
  }

  lemma NothingStored(stages: seq<Stage>, vs: seq<Value>)
    requires |vs| <= |stages|
    ensures StoreUpTo(stages, vs, 0) == map[]
  {
  }

  lemma YieldFits(cat: Catalog, context: Context, stages: seq<Stage>, vs: seq<Value>, k: nat)
    requires PipelineOk(cat, stages) && |vs| + 1 == |stages| && k < |stages|
    ensures StageFits(cat, stages, k)
  {
  }

  /** A pipeline whose stages yield vs runs, stores exactly vs, and leaves each stage's cache in the memo. */
  lemma PipelineRun(cat: Catalog, context: Context, stages: seq<Stage>, bps: real, vs: seq<Value>)
    requires PipelineOk(cat, stages) && |vs| + 1 == |stages| && AllYield(cat, context, stages, vs)
    requires Runnable(LeastPlan, PipelineRoot(stages, bps), [])
    ensures var r := RunOf(Planned(cat, context), PipelineRoot(stages, bps));
      && r.failure.None? && r.store == StoreUpTo(stages, vs, |vs|)
      && (context.memo.Some? ==> CachesLeft(cat, context, stages, vs, r.memo, |stages|))
  {
    hide ExecNodes, Runnable, StoreUpTo, AllYield, PipelineOk, CachesLeft;
    var order := Count(|stages|);
    assert order[..|stages|] == order;
    PipelinePlan(stages);
    forall id | id in order ensures id in PipelineRoot(stages, bps).Ids() {
      StageIs(stages, bps, id);
    }
    StagesRun(cat, context, stages, bps, vs, |stages|);
  }

  /** Evaluating a pipeline delivers the targets of its last but one stage. */
  lemma PipelineEvaluation(cat: Catalog, context: Context, stages: seq<Stage>, bps: real, vs: seq<Value>, store: Definitions)
    requires PipelineOk(cat, stages) && |vs| + 1 == |stages| && AllYield(cat, context, stages, vs) && KeyedByIdentity(store)
    requires vs != [] && vs[|vs| - 1].PortfolioTargetsValue? && context.view.sessions != []
    ensures var outcome := Evaluation(cat, PipelineDocument(stages, bps), store, context);
      && outcome.Ok() && outcome.targets == Some(vs[|vs| - 1].weights) && outcome.outputs == StoreUpTo(stages, vs, |vs|)
      && (context.memo.Some? ==> CachesLeft(cat, context, stages, vs, outcome.memo, |stages|))
  {
    hide PreflightOf, RunOf, Runnable, StoreUpTo, AllYield, CachesLeft, PipelineOk, KeyedByIdentity, RootOf, WellWired, TerminalNodes;
    var doc := PipelineDocument(stages, bps);
    PipelineAccepted(cat, stages, bps, store);
    NoFaultsMeansClean(cat, doc, store, context);
    RootIsRunnable(cat, doc, store);
    PipelineRun(cat, context, stages, bps, vs);
    PipelineTerminal(cat, stages);
    LastDelivered(cat, stages, bps, vs);
    var run := RunOf(Planned(cat, context), PipelineRoot(stages, bps));
    assert Evaluation(cat, doc, store, context) == Extracted(cat, doc, run);
  }

  lemma LastDelivered(cat: Catalog, stages: seq<Stage>, bps: real, vs: seq<Value>)
    requires PipelineOk(cat, stages) && |vs| + 1 == |stages| && vs != [] && vs[|vs| - 1].PortfolioTargetsValue?
    ensures var terminal := NodesOf(stages)[|stages| - 1];
      DeliveredTargets(cat, PipelineDocument(stages, bps), terminal, StoreUpTo(stages, vs, |vs|)) == Some(vs[|vs| - 1].weights)
  {
    hide StoreUpTo, EdgesOf, SourceOf;
    var last := |stages| - 1;
    assert StageFits(cat, stages, last);
    PipelineSource(stages, last, stages[last - 1].out);
    StoredStage(stages, vs, |vs|, last - 1);
  }
}
