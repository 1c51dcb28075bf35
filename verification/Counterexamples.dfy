/** Concrete runs that show which conditions of the theorems cannot be dropped. */
module Counterexamples {
  import opened AverageLoops
  import opened AveragePipelines
  import opened AverageWarmup
  import opened Closure
  import opened Collections
  import opened Compositionality
  import opened Diagnostics
  import opened Documents
  import opened Engine
  import opened Evaluator
  import Execution
  import opened Fills
  import opened FillLoops
  import opened FlatDocuments
  import opened Market
  import opened MemoRuns
  import opened MovingAverage
  import opened PipelineRuns
  import opened Pipelines
  import opened Portfolio
  import opened Preflight
  import Reconciliation
  import opened Replay
  import Resolution
  import opened RunInvariants
  import opened Schedule
  import opened SeriesNodes
  import opened Sessions
  import opened StrategyEvaluation
  import opened Typing

  /* ---- a terminal that receives nothing ---- */

  /** A terminal type whose one targets input is optional. */
  function OptionalTerminal(): Implementation {
    Implementation([InputPort(TARGETS, PortfolioTargetsType, false)], [], (p: Params) => true,
                   (inv: NodeInvocation) => NodeResult([], Outputs(map[]), inv.Cached()), (p: Params) => 0)
  }

  function OptionalCatalog(): Catalog {
    Catalog(map[(TERMINAL_TYPE_ID, 0) := OptionalTerminal()])
  }

  const LONE_TERMINAL: seq<Stage> := [Stage(TERMINAL_TYPE_ID, map[], 0)]

  lemma LoneTerminalRuns(context: Context)
    ensures OptionalCatalog().Resolve(TERMINAL_TYPE_ID, 0) == Resolved(OptionalTerminal())
    ensures PipelineOk(OptionalCatalog(), LONE_TERMINAL) && AllYield(OptionalCatalog(), context, LONE_TERMINAL, [])
  {
  }

  lemma LoneTerminalRejected()
    ensures var doc := PipelineDocument(LONE_TERMINAL, 0.0);
      |TerminalNodes(doc.graph.nodes)| == 1 && !TerminalAccepts(OptionalCatalog(), doc)
  {
    LoneTerminalRuns(Context(DataView(0, [], map[], map[]), None));
    PipelineTerminal(OptionalCatalog(), LONE_TERMINAL);
    assert EdgesOf(LONE_TERMINAL) == [];
  }

  /** A document that passes pre-flight, whose every node succeeds, and whose evaluation still reports an invalid terminal. */
  lemma UnconnectedTerminalIsInvalid(store: Definitions, context: Context)
    requires KeyedByIdentity(store) && context.view.sessions != []
    ensures var cat, doc := OptionalCatalog(), PipelineDocument(LONE_TERMINAL, 0.0);
      PreflightOf(cat, doc, store).Ok() && TerminalInvalid(Evaluation(cat, doc, store, context)) && !FailedInNode(Evaluation(cat, doc, store, context))
  {
    hide OptionalCatalog, PipelineDocument, PreflightOf, KeyedByIdentity, TerminalAccepts, RunOf, RootOf, TerminalNodes, PipelineOk, AllYield, WellWired, Runnable;
    var cat, doc := OptionalCatalog(), PipelineDocument(LONE_TERMINAL, 0.0);
    LoneTerminalRuns(context);
    LoneTerminalRejected();
    PipelineAccepted(cat, LONE_TERMINAL, 0.0, store);
    NoFaultsMeansClean(cat, doc, store, context);
    RootIsRunnable(cat, doc, store);
    PipelineRun(cat, context, LONE_TERMINAL, 0.0, []);
    EvaluationProgress(cat, doc, store, context);
    RanNotFailed(cat, doc, RunOf(Execution.Planned(cat, context), RootInstance(cat, doc, store)));
  }

  lemma RanNotFailed(cat: Catalog, doc: Document, run: Run)
    requires |TerminalNodes(doc.graph.nodes)| == 1 && run.failure.None?
    ensures !FailedInNode(Extracted(cat, doc, run))
  {
    hide DeliveredTargets, TerminalNodes;
    var outcome := Extracted(cat, doc, run);
    var terminal := TerminalNodes(doc.graph.nodes)[0];
    assert terminal in TerminalNodes(doc.graph.nodes);
    if !outcome.Ok() {
      var d := Diagnostic(InvalidTerminalNode, [terminal.id], terminal.id);
      assert outcome.diagnostics == {d};
      forall e | outcome.diagnostics == {e} ensures !NodeFault(e) {
        assert e in {d};
      }
    }
  }

  /* ---- four sessions of one asset, whose close doubles every session ---- */

  function SampleCalendar(): seq<MarketSession> {
    [MarketSession(0, 0, 1), MarketSession(1, 2, 3), MarketSession(2, 4, 5), MarketSession(3, 6, 7)]
  }

  function SampleObservations(): seq<Observation> {
    [Observation(0, 1.0, 1.0, 0, 1), Observation(1, 2.0, 2.0, 2, 3), Observation(2, 4.0, 4.0, 4, 5), Observation(3, 8.0, 8.0, 6, 7)]
  }

  lemma SampleOk()
    ensures DataOk(MarketData(SampleCalendar(), map[0 := SampleObservations()]))
  {
    var calendar, series := SampleCalendar(), SampleObservations();
    forall i | 0 <= i < |series| ensures ObservationOk(calendar, series[i]) {
      assert calendar[i].date == series[i].date;
    }
  }

  function Sample(): DataSet {
    SampleOk();
    MarketData(SampleCalendar(), map[0 := SampleObservations()])
  }

  function SamplePoints(): seq<Point> {
    [Point(0, 1.0), Point(1, 2.0), Point(2, 4.0), Point(3, 8.0)]
  }

  lemma {:induction false} VisiblePrefix(n: nat, k: nat)
    requires n <= 4 && k < 4
    ensures VisibleCloses(SampleObservations()[..n], 2 * k + 1) == SamplePoints()[..if n <= k + 1 then n else k + 1]
  {
    if n > 0 {
      VisiblePrefix(n - 1, k);
      var front := SampleObservations()[..n];
      assert front[..n - 1] == SampleObservations()[..n - 1];
      assert front[n - 1] == SampleObservations()[n - 1];
    }
  }

  /** By the close of session k the sessions up to k and their closes are visible. */
  lemma SampleView(k: nat)
    requires k < 4
    ensures Sample().calendar[k].closeAt == 2 * k + 1
    ensures var view := AsOf(Sample(), 2 * k + 1); view.CloseHistory(0) == SamplePoints()[..k + 1] && view.sessions == Count(k + 1)
  {
    VisiblePrefix(4, k);
    assert SampleObservations()[..4] == SampleObservations();
    SessionsAt(Sample(), k);
    assert AsOf(Sample(), 2 * k + 1).sessions == Count(k + 1);
  }

  function SampleConfig(source: NodeInvocation -> NodeResult, pick: Series -> Weights, windows: seq<WindowLength>): Config {
    Config(PipelineDocument(StagesOf(windows), 0.0), Daily, AverageCatalog({0}, source, pick), map[], Sample(), None, None, false)
  }

  lemma SampleRuns(source: NodeInvocation -> NodeResult, pick: Series -> Weights, windows: seq<WindowLength>)
    ensures var cfg := SampleConfig(source, pick, windows);
      RunsAverages(cfg, {0}, source, pick, windows) && ConfigOk(cfg) && Window(cfg) == Sample().calendar
  {
    hide AverageCatalog, StagesOf, NodesOf, EdgesOf, Resolution.Resolvable, Sample;
    var cfg := SampleConfig(source, pick, windows);
    RunsAveragesOk(cfg, {0}, source, pick, windows);
    WholeCalendar(Sample().calendar);
  }

  /* ---- the warm-up gate opens too early ---- */

  lemma SampleOnTime(k: nat)
    requires k < 4
    ensures ClosedOnTime(Sample(), 0, k)
  {
    hide Sample, Dict, AsOf;
    SampleView(k);
    SampleDates(k);
    forall i | 0 <= i <= k ensures Sample().calendar[i].date in Dict(SamplePoints()[..k + 1]) {
      assert SamplePoints()[..k + 1][i] in SamplePoints()[..k + 1];
    }
  }

  lemma SampleDates(k: nat)
    requires k < 4
    ensures |Sample().calendar| == 4 && forall i :: 0 <= i <= k ==> Sample().calendar[i].date == i == SamplePoints()[i].date
  {
  }

  /** An average over two sessions of an average over two sessions: the first evaluation is at the second session, and the
      outer average has no point there, although every close arrived on time. */
  lemma TwoWindowsTooEarly(pick: Series -> Weights, initial: PortfolioState)
    ensures var cfg := SampleConfig(PriceNode, pick, [2, 2]);
      && ConfigOk(cfg) && |Window(cfg)| == 4 && !EvaluatesAt(cfg, 0) && EvaluatesAt(cfg, 1)
      && var outcome := Evaluation(cfg.catalog, cfg.document, cfg.components, Context(AsOf(cfg.data, 3), Some(map[])));
      && outcome.Ok() && HoldsSeries(outcome.outputs, LastAverage([2, 2]), 0)
      && 1 !in Dict(outcome.outputs[LastAverage([2, 2])].series[0])
  {
    hide AverageCatalog, Evaluation, Dict, AsOf, ConfigOk, EvaluatesAt, HoldsSeries, StagesOf, RunsAverages, Sample, PipelineDocument;
    var windows: seq<WindowLength> := [2, 2];
    var cfg := SampleConfig(PriceNode, pick, windows);
    SampleRuns(PriceNode, pick, windows);
    assert Waited(windows) == 1 by { assert windows[..1] == [2] && windows[..1][..0] == []; }
    SampleDates(3);
    SampleView(1);
    SampleOnTime(1);
    FirstEvaluationDefinedIff(cfg, {0}, pick, windows, initial, 0);
    assert windows[0] != 1 && windows[1] != 1;
  }

  /* ---- a source that revises ---- */

  /** Closes relative to the latest one: every new session revises all earlier points. */
  function Relative(h: seq<Point>): seq<Point> {
    if h == [] || h[|h| - 1].value <= 0.0 then []
    else seq(|h|, i requires 0 <= i < |h| => Point(h[i].date, h[i].value / h[|h| - 1].value))
  }

  /** A pure node that ignores the memo. */
  function RelativeNode(inv: NodeInvocation): NodeResult {
    if !(ASSETS in inv.inputs && inv.inputs[ASSETS].AssetSetValue?) then NodeResult([], Raised, inv.Cached())
    else
      var assets := inv.inputs[ASSETS].assets;
      NodeResult([], Outputs(map[SERIES := Runtime(TimeSeriesValue(map a | a in assets :: Relative(inv.view.CloseHistory(a))))]), inv.Cached())
  }

  lemma AllInOk()
    ensures WeightsOk(map[0 := 1.0])
  {
    var w: map<Asset, real> := map[0 := 1.0];
    SumInsert(map[], 0, 1.0);
    assert map[][0 := 1.0] == w;
  }

  /** Everything into the asset if the oldest point of its average is below one half. */
  function PickLow(series: Series): Weights {
    AllInOk();
    if 0 in series && series[0] != [] && series[0][0].value < 0.5 then map[0 := 1.0] else map[]
  }

  function RevisedConfig(): Config {
    SampleConfig(RelativeNode, PickLow, [2])
  }

  lemma RelativeIgnores()
    ensures IgnoresMemo(SourceType(RelativeNode))
  {
    hide Relative;
  }

  lemma RevisedDisciplined()
    ensures OnlyAveragesMemoise(RevisedConfig().catalog)
  {
    hide AverageCatalog, StagesOf, PipelineDocument, Sample, IgnoresMemo;
    RelativeIgnores();
    OnlyAveragesCache({0}, RelativeNode, PickLow);
  }

  /* ---- the two evaluations ---- */

  lemma MeanOfTwo(history: map<Date, real>, sessions: seq<Date>, i: nat)
    requires 1 <= i < |sessions| && sessions[i - 1] in history && sessions[i] in history
    ensures MeanAt(history, sessions, 2, i) == Some((history[sessions[i - 1]] + history[sessions[i]]) / 2.0)
  {
    var dates := sessions[i - 1..i + 1];
    assert dates[..1] == [sessions[i - 1]] && dates[..1][..0] == [];
    assert SumOver(history, []) == Some(0.0);
    assert SumOver(history, dates[..1]) == Some(0.0 + history[sessions[i - 1]]);
  }

  lemma DictOfTwo(a: Point, b: Point)
    requires a.date != b.date
    ensures Dict([a, b]) == map[a.date := a.value, b.date := b.value]
  {
    assert [a, b][..1] == [a] && [a][..0] == [];
  }

  lemma DictOfThree(a: Point, b: Point, c: Point)
    requires a.date != b.date && b.date != c.date && a.date != c.date
    ensures Dict([a, b, c]) == map[a.date := a.value, b.date := b.value, c.date := c.value]
  {
    assert [a, b, c][..2] == [a, b];
    DictOfTwo(a, b);
  }

  lemma FirstRelative()
    ensures Relative(SamplePoints()[..2]) == [Point(0, 0.5), Point(1, 1.0)]
  {
    assert SamplePoints()[..2] == [Point(0, 1.0), Point(1, 2.0)];
  }

  lemma SecondRelative()
    ensures Relative(SamplePoints()[..3]) == [Point(0, 0.25), Point(1, 0.5), Point(2, 1.0)]
  {
    assert SamplePoints()[..3] == [Point(0, 1.0), Point(1, 2.0), Point(2, 4.0)];
  }

  /** At the second session: one mean, and it is cached. */
  lemma FirstReplay(slot: map<Date, real>)
    requires slot == map[]
    ensures Replayed(Dict([Point(0, 0.5), Point(1, 1.0)]), [0, 1], 2, slot, 2) == ([Point(1, 0.75)], slot[1 := 0.75])
  {
    hide Replayed, Dict, MeanAt;
    var history, sessions: seq<Date> := Dict([Point(0, 0.5), Point(1, 1.0)]), [0, 1];
    DictOfTwo(Point(0, 0.5), Point(1, 1.0));
    ReplayedNothing(history, sessions, 2, slot, 1);
    ReplayedStep(history, sessions, 2, slot, 1);
    MeanOfTwo(history, sessions, 1);
    assert [] + [Point(1, 0.75)] == [Point(1, 0.75)];
  }

  /** At the third session: with the cache the old mean, without it the revised one. */
  lemma SecondReplay(slot: map<Date, real>)
    requires slot == map[] || slot == map[1 := 0.75]
    ensures var points := Replayed(Dict([Point(0, 0.25), Point(1, 0.5), Point(2, 1.0)]), [0, 1, 2], 2, slot, 3).0;
      points == [Point(1, if slot == map[] then 0.375 else 0.75), Point(2, 0.75)]
  {
    hide Replayed, Dict, MeanAt;
    var history, sessions: seq<Date> := Dict([Point(0, 0.25), Point(1, 0.5), Point(2, 1.0)]), [0, 1, 2];
    DictOfThree(Point(0, 0.25), Point(1, 0.5), Point(2, 1.0));
    ReplayedNothing(history, sessions, 2, slot, 1);
    ReplayedStep(history, sessions, 2, slot, 1);
    ReplayedStep(history, sessions, 2, slot, 2);
    MeanOfTwo(history, sessions, 1);
    MeanOfTwo(history, sessions, 2);
  }

  function PlainOf(points: seq<Point>): Series {
    map[0 := points]
  }

  const AVERAGE_PATH: Path := [2]

  /** The memo after the first evaluation. */
  ghost predicate FirstCached(memo: Memo) {
    CacheIn(memo, AVERAGE_PATH) == map[0 := map[1 := 0.75]]
  }

  ghost predicate NoneCached(memo: Memo) {
    CacheIn(memo, AVERAGE_PATH) == map[]
  }

  function ContextAt(k: nat, memo: Memo): Context {
    Context(AsOf(Sample(), 2 * k + 1), Some(memo))
  }

  /** The source yields the relative series. */
  lemma SourceYields(k: nat, memo: Memo)
    requires k < 4
    ensures RelativeNode(ContextAt(k, memo).Invoked([1], map[], map[ASSETS := AssetSetValue({0})])).outcome
            == Outputs(map[SERIES := Runtime(TimeSeriesValue(PlainOf(Relative(SamplePoints()[..k + 1]))))])
  {
    hide Relative, Sample, AsOf;
    SampleView(k);
    var view := AsOf(Sample(), 2 * k + 1);
    var assets: set<Asset> := {0};
    assert (map a | a in assets :: Relative(view.CloseHistory(a))) == PlainOf(Relative(SamplePoints()[..k + 1]));
  }

  lemma OneAssetAverage(points: seq<Point>, sessions: seq<Date>, cache: Cache)
    ensures AverageSeries(PlainOf(points), sessions, 2, Some(cache)) == PlainOf(Replayed(Dict(points), sessions, 2, SlotOf(cache, 0), |sessions|).0)
    ensures cache.Keys <= {0} ==> CacheAfter(PlainOf(points), sessions, 2, cache) == map[0 := Replayed(Dict(points), sessions, 2, SlotOf(cache, 0), |sessions|).1]
  {
    hide Replayed, Dict;
  }

  const TWO: seq<WindowLength> := [2]

  /** The first evaluation: no position, and one cached mean. */
  lemma FirstAveraged(memo: Memo)
    requires NoneCached(memo)
    ensures Averaged({0}, RelativeNode, ContextAt(1, memo), TWO, [PlainOf(Relative(SamplePoints()[..2])), PlainOf([Point(1, 0.75)])])
  {
    hide Relative, Sample, AsOf, Replayed, Dict, RelativeNode;
    SourceYields(1, memo);
    SampleView(1);
    FirstRelative();
    assert Count(2) == [0, 1];
    FirstReplay(map[]);
    OneAssetAverage([Point(0, 0.5), Point(1, 1.0)], [0, 1], map[]);
    assert [0 + 2] == AVERAGE_PATH;
  }

  /** The second evaluation, with what the memo has. */
  lemma SecondAveraged(memo: Memo)
    requires NoneCached(memo) || FirstCached(memo)
    ensures Averaged({0}, RelativeNode, ContextAt(2, memo), TWO,
                     [PlainOf(Relative(SamplePoints()[..3])), PlainOf([Point(1, if NoneCached(memo) then 0.375 else 0.75), Point(2, 0.75)])])
  {
    hide Relative, Sample, AsOf, Replayed, Dict, RelativeNode;
    SourceYields(2, memo);
    SampleView(2);
    SecondRelative();
    assert Count(3) == [0, 1, 2];
    var cache := CacheIn(memo, AVERAGE_PATH);
    var slot := SlotOf(cache, 0);
    if FirstCached(memo) {
      assert 0 in cache && 1 in slot;
    }
    assert slot == map[] <==> NoneCached(memo);
    SecondReplay(slot);
    OneAssetAverage([Point(0, 0.25), Point(1, 0.5), Point(2, 1.0)], [0, 1, 2], cache);
    assert [0 + 2] == AVERAGE_PATH;
  }

  ghost function EvaluationAt(k: nat, memo: Memo): Outcome {
    var cfg := RevisedConfig();
    NothingStoredIsKeyed();
    Evaluation(cfg.catalog, cfg.document, cfg.components, ContextAt(k, memo))
  }

  lemma NothingStoredIsKeyed()
    ensures KeyedByIdentity(map[])
  {
  }

  lemma FirstEvaluation(memo: Memo)
    requires NoneCached(memo)
    ensures EvaluationAt(1, memo).Ok() && EvaluationAt(1, memo).targets == Some(map[]) && FirstCached(EvaluationAt(1, memo).memo)
  {
    hide AverageCatalog, Evaluation, Relative, Sample, AsOf, StagesOf, CachesLeft, StoreUpTo, RelativeNode, Averaged, PipelineDocument;
    FirstAveraged(memo);
    SampleView(1);
    var series := [PlainOf(Relative(SamplePoints()[..2])), PlainOf([Point(1, 0.75)])];
    NothingStoredIsKeyed();
    AveragesEvaluate({0}, RelativeNode, PickLow, ContextAt(1, memo), TWO, series, 0.0, map[]);
    FirstLeaves(memo, EvaluationAt(1, memo).memo);
  }

  /** What the average leaves when it is handed the first relative series. */
  lemma FirstCache(memo: Memo)
    requires NoneCached(memo)
    ensures AverageNode(ContextAt(1, memo).Invoked([2], map[WINDOW := 2], map[SERIES := TimeSeriesValue(PlainOf([Point(0, 0.5), Point(1, 1.0)]))])).cache
            == map[0 := map[1 := 0.75]]
  {
    hide Sample, AsOf, Replayed, Dict, AverageSeries, CacheAfter, AverageTrace;
    SampleView(1);
    assert Count(2) == [0, 1];
    FirstReplay(map[]);
    OneAssetAverage([Point(0, 0.5), Point(1, 1.0)], [0, 1], map[]);
  }

  lemma FirstLeaves(memo: Memo, after: Memo)
    requires NoneCached(memo) && PipelineOk(RevisedConfig().catalog, StagesOf(TWO))
    requires CachesLeft(RevisedConfig().catalog, ContextAt(1, memo), StagesOf(TWO),
                        ValuesOf({0}, [PlainOf(Relative(SamplePoints()[..2])), PlainOf([Point(1, 0.75)])], PickLow), after, 5)
    ensures FirstCached(after)
  {
    hide AverageCatalog, Relative, Sample, AsOf, RelativeNode, AverageNode, PipelineOk, PlainOf, PipelineDocument;
    CatalogHas({0}, RelativeNode, PickLow);
    FirstRelative();
    FirstCache(memo);
    assert StagesOf(TWO)[1] == StageAt(TWO, 1) && StagesOf(TWO)[2] == StageAt(TWO, 2);
    var vs := ValuesOf({0}, [PlainOf(Relative(SamplePoints()[..2])), PlainOf([Point(1, 0.75)])], PickLow);
    assert vs[1] == TimeSeriesValue(PlainOf([Point(0, 0.5), Point(1, 1.0)]));
    assert [2] in after && after[[2]] == ResultAt(RevisedConfig().catalog, ContextAt(1, memo), StagesOf(TWO), vs, 2).cache;
  }

  lemma SecondEvaluation(memo: Memo)
    requires NoneCached(memo) || FirstCached(memo)
    ensures EvaluationAt(2, memo).Ok() && EvaluationAt(2, memo).targets == Some(if NoneCached(memo) then map[0 := 1.0] else map[])
  {
    hide AverageCatalog, Evaluation, Relative, Sample, AsOf, StagesOf, CachesLeft, StoreUpTo, RelativeNode, Averaged, PipelineDocument;
    SecondAveraged(memo);
    SampleView(2);
    var series := [PlainOf(Relative(SamplePoints()[..3])), PlainOf([Point(1, if NoneCached(memo) then 0.375 else 0.75), Point(2, 0.75)])];
    NothingStoredIsKeyed();
    AveragesEvaluate({0}, RelativeNode, PickLow, ContextAt(2, memo), TWO, series, 0.0, map[]);
  }

  /* ---- the two runs ---- */

  /** Cash only, nothing queued: the open and the mark have nothing to do. */
  ghost predicate Idle(e: EngineState) {
    e.pending.None? && e.state.positions == map[]
  }

  lemma IdleOpens(cfg: Config, e: EngineState, s: MarketSession)
    requires Idle(e)
    ensures AtOpen(cfg, e, s) == StepResult(e, None)
  {
  }

  lemma IdleMarks(cfg: Config, e: EngineState, s: MarketSession)
    requires Idle(e)
    ensures AtMark(cfg, e, s) == StepResult(e.(valuations := e.valuations + [(s.date, e.state.cash)]), None)
  {
    hide AsOf;
    assert Sorted(e.state.positions.Keys) == [];
    assert e.staleMarks + [] == e.staleMarks;
  }

  function Valued(e: EngineState, s: MarketSession): EngineState {
    e.(valuations := e.valuations + [(s.date, e.state.cash)])
  }

  lemma IdleSteps(cfg: Config, warmup: int, e: EngineState, s: MarketSession)
    requires ConfigOk(cfg) && Idle(e)
    ensures Step(cfg, warmup, e, s) == AtClose(cfg, warmup, Valued(e, s), s)
  {
    hide AtOpen, AtMark, AtClose, ConfigOk;
    IdleOpens(cfg, e, s);
    IdleMarks(cfg, e, s);
  }

  /** No targets and no positions: nothing to plan. */
  lemma NothingPlanned(state: PortfolioState, prices: map<Asset, real>)
    requires state.positions == map[]
    ensures var plan := Reconciliation.Reconcile(state, map[], prices); plan.Planned? && plan.orders == []
  {
    var none: Weights := map[];
    assert Reconciliation.PositiveWeights(none) == map[];
    assert Reconciliation.PlanningSet(state, none) == {};
    assert Sorted({}) == [];
  }

  lemma Recorded(cfg: Config, e: EngineState, s: MarketSession, next: MarketSession, outcome: Outcome)
    requires outcome.Ok() && e.memo.Some?
    ensures var r := AfterOutcome(cfg, e, s, next, outcome);
      && |r.engine.evaluations| == |e.evaluations| + 1 && e.evaluations <= r.engine.evaluations
      && r.engine.evaluations[|e.evaluations|].weights == outcome.targets.value && r.engine.memo == Some(outcome.memo)
      && (Idle(e) && outcome.targets.value == map[] ==> r.failure.None? && Idle(r.engine))
  {
    hide AsOf, ClosesAt, Omitted, NodeTrace, Reconciliation.PlanningSet, Reconciliation.Reconcile;
    var targets := outcome.targets.value;
    var prices := ClosesAt(AsOf(cfg.data, s.closeAt), s.date, Reconciliation.PlanningSet(e.state, targets));
    if Idle(e) && targets == map[] {
      NothingPlanned(e.state, prices);
    }
  }

  /** The gate of the sample run. */
  lemma SampleGate(k: nat)
    requires k < 3
    ensures var cfg := RevisedConfig();
      && ConfigOk(cfg) && Window(cfg) == cfg.data.calendar && |Window(cfg)| == 4 && Window(cfg)[k].closeAt == 2 * k + 1
      && GateAt(cfg, WarmupOf(cfg), Window(cfg)[k]) == if k < 1 then Declined(WarmupNotSatisfied) else Open(Window(cfg)[k + 1])
  {
    hide AverageCatalog, StagesOf, PipelineDocument, Sample, WarmupOf, RunsAverages, ConfigOk, GateAt, Firing;
    var cfg := RevisedConfig();
    SampleRuns(RelativeNode, PickLow, TWO);
    SampleDates(3);
    SampleView(k);
    assert Waited(TWO) == 1 by { assert TWO[..0] == []; }
    DailyFires(cfg, k);
    GateOpensIff(cfg, {0}, RelativeNode, PickLow, TWO, k);
  }

  lemma FirstSession(e: EngineState)
    requires Idle(e)
    ensures ConfigOk(RevisedConfig()) && |Window(RevisedConfig())| == 4
    ensures var cfg := RevisedConfig();
      var r := Step(cfg, WarmupOf(cfg), e, Window(cfg)[0]);
      r.failure.None? && Idle(r.engine) && KeepsEvaluations(e, r.engine)
  {
    hide SampleConfig, WarmupOf, ConfigOk, GateAt, AverageCatalog, Sample, Engine.Step;
    SampleGate(0);
    var cfg := RevisedConfig();
    IdleSteps(cfg, WarmupOf(cfg), e, Window(cfg)[0]);
  }

  /** A session that evaluates records the evaluation's targets and keeps its memo. */
  lemma EvaluatingSession(k: nat, e: EngineState)
    requires 1 <= k < 3 && Idle(e) && e.memo.Some? && EvaluationAt(k, e.memo.value).Ok()
    ensures ConfigOk(RevisedConfig()) && |Window(RevisedConfig())| == 4
    ensures var cfg, outcome := RevisedConfig(), EvaluationAt(k, e.memo.value);
      var r := Step(cfg, WarmupOf(cfg), e, Window(cfg)[k]);
      && |r.engine.evaluations| == |e.evaluations| + 1 && e.evaluations <= r.engine.evaluations
      && r.engine.evaluations[|e.evaluations|].weights == outcome.targets.value && r.engine.memo == Some(outcome.memo)
      && (outcome.targets.value == map[] ==> r.failure.None? && Idle(r.engine))
  {
    hide WarmupOf, GateAt, AverageCatalog, Sample, Engine.Step, AfterOutcome, Evaluation, StagesOf, PipelineDocument, AsOf, Resolution.Resolvable;
    SampleGate(k);
    var cfg := RevisedConfig();
    var s := Window(cfg)[k];
    IdleSteps(cfg, WarmupOf(cfg), e, s);
    var valued := Valued(e, s);
    Recorded(cfg, valued, s, Window(cfg)[k + 1], EvaluationAt(k, e.memo.value));
    assert AtClose(cfg, WarmupOf(cfg), valued, s) == AfterOutcome(cfg, valued, s, Window(cfg)[k + 1], EvaluationAt(k, e.memo.value));
  }

  lemma SampleEntry()
    ensures ConfigOk(RevisedConfig()) && EntryCheck(RevisedConfig()).None?
  {
    hide AverageCatalog, StagesOf, NodesOf, EdgesOf, Sample, RunsAverages, Resolution.Resolve, Flat;
    SampleRuns(RelativeNode, PickLow, TWO);
    var cfg := RevisedConfig();
    RunsAveragesOk(cfg, {0}, RelativeNode, PickLow, TWO);
    FlatResolves(cfg.catalog, cfg.document, cfg.components);
  }

  lemma DriveOn(cfg: Config, initial: PortfolioState, actions: seq<Action>, action: Action)
    requires ConfigOk(cfg)
    ensures Drive(cfg, initial, actions + [action]) == Act(cfg, Drive(cfg, initial, actions), action)
  {
    hide Act, Start, ConfigOk;
    assert (actions + [action])[..|actions|] == actions;
  }

  /** The replay has fed n sessions, is idle, and has recorded one evaluation per evaluated session. */
  ghost predicate At(c: Checkpoint, n: nat, evaluations: nat) {
    c.cursor == n && c.failure.None? && Idle(c.engine) && |c.engine.evaluations| == evaluations && c.engine.memo.Some?
  }

  lemma TwoSessions(initial: PortfolioState)
    requires initial.positions == map[]
    ensures ConfigOk(RevisedConfig())
    ensures var c := Drive(RevisedConfig(), initial, [Advance, Advance]); At(c, 2, 1) && FirstCached(c.engine.memo.value)
  {
    hide RevisedConfig, Engine.Step, WarmupOf, Window, EntryCheck, ConfigOk, EvaluationAt, Drive, FirstCached;
    var cfg := RevisedConfig();
    SampleEntry();
    assert Drive(cfg, initial, []) == Start(cfg, initial) by { StartsThere(cfg, initial); }
    assert [] + [Advance] == [Advance] && [Advance] + [Advance] == [Advance, Advance];
    DriveOn(cfg, initial, [], Advance);
    DriveOn(cfg, initial, [Advance], Advance);
    FirstSession(Initial(initial));
    FirstEvaluation(map[]);
    var e := Drive(cfg, initial, [Advance]).engine;
    EvaluatingSession(1, e);
  }

  lemma StartsThere(cfg: Config, initial: PortfolioState)
    requires ConfigOk(cfg)
    ensures Drive(cfg, initial, []) == Start(cfg, initial)
  {
    hide Start, ConfigOk;
  }

  /** The second evaluation on record. */
  ghost predicate SecondRecorded(c: Checkpoint, weights: map<Asset, real>) {
    |c.engine.evaluations| >= 2 && c.engine.evaluations[1].weights == weights
  }

  lemma ThirdSession(c: Checkpoint)
    requires ConfigOk(RevisedConfig()) && At(c, 2, 1) && (NoneCached(c.engine.memo.value) || FirstCached(c.engine.memo.value))
    ensures SecondRecorded(Advanced(RevisedConfig(), c), if NoneCached(c.engine.memo.value) then map[0 := 1.0] else map[])
  {
    hide RevisedConfig, Engine.Step, WarmupOf, Window, ConfigOk, EvaluationAt, FirstCached, NoneCached;
    SecondEvaluation(c.engine.memo.value);
    EvaluatingSession(2, c.engine);
  }

  /** Later sessions only append. */
  lemma StillRecorded(cfg: Config, c: Checkpoint, weights: map<Asset, real>)
    requires ConfigOk(cfg) && SecondRecorded(c, weights)
    ensures SecondRecorded(Advanced(cfg, c), weights)
  {
    hide Engine.Step, WarmupOf, Window, ConfigOk;
    if !Exhausted(cfg, c) {
      StepGrows(cfg, WarmupOf(cfg), c.engine, Window(cfg)[c.cursor]);
    }
  }

  const WHOLE: seq<Action> := [Advance, Advance, Advance, Advance]
  const CUT: seq<Action> := [Advance, Advance, SnapshotAndResume, Advance, Advance]

  lemma WholeRun(initial: PortfolioState)
    requires initial.positions == map[]
    ensures ConfigOk(RevisedConfig()) && SecondRecorded(Drive(RevisedConfig(), initial, WHOLE), map[])
  {
    hide RevisedConfig, Advanced, Drive, ConfigOk, FirstCached, NoneCached, SecondRecorded;
    var cfg := RevisedConfig();
    TwoSessions(initial);
    var two: seq<Action> := [Advance, Advance];
    var c := Drive(cfg, initial, two);
    assert two + [Advance] + [Advance] == WHOLE;
    DriveOn(cfg, initial, two, Advance);
    DriveOn(cfg, initial, two + [Advance], Advance);
    NotBoth(c.engine.memo.value);
    ThirdSession(c);
    StillRecorded(cfg, Advanced(cfg, c), map[]);
  }

  lemma NotBoth(memo: Memo)
    requires FirstCached(memo)
    ensures !NoneCached(memo)
  {
    assert 0 in CacheIn(memo, AVERAGE_PATH);
  }

  lemma EmptyIsNone()
    ensures NoneCached(map[])
  {
  }

  lemma CutRun(initial: PortfolioState)
    requires initial.positions == map[]
    ensures ConfigOk(RevisedConfig()) && SecondRecorded(Drive(RevisedConfig(), initial, CUT), map[0 := 1.0])
  {
    hide RevisedConfig, Advanced, Drive, ConfigOk, FirstCached, NoneCached, SecondRecorded, EntryCheck;
    var cfg := RevisedConfig();
    TwoSessions(initial);
    SampleEntry();
    EmptyIsNone();
    var two: seq<Action> := [Advance, Advance];
    var c := Drive(cfg, initial, two);
    assert two + [SnapshotAndResume] + [Advance] + [Advance] == CUT;
    DriveOn(cfg, initial, two, SnapshotAndResume);
    DriveOn(cfg, initial, two + [SnapshotAndResume], Advance);
    DriveOn(cfg, initial, two + [SnapshotAndResume] + [Advance], Advance);
    var resumed := Resumed(cfg, Taken(c));
    ThirdSession(resumed);
    StillRecorded(cfg, Advanced(cfg, resumed), map[0 := 1.0]);
  }

  lemma FourAdvances()
    ensures Advances(WHOLE) == 4 && Advances(CUT) == 4 && Uncut(WHOLE)
  {
    assert WHOLE[..3] == [Advance, Advance, Advance] && [Advance, Advance, Advance][..2] == [Advance, Advance];
    assert [Advance, Advance][..1] == [Advance] && [Advance][..0] == [];
    assert Advances([Advance, Advance]) == 2;
    assert CUT[..4] == [Advance, Advance, SnapshotAndResume, Advance];
    assert CUT[..4][..3] == [Advance, Advance, SnapshotAndResume];
    assert CUT[..4][..3][..2] == [Advance, Advance];
  }

  /** The condition of replay equality cannot be dropped: here only an average uses the memo, every node is pure, and yet a
      replay that is cut once, and a backtest over the same inputs, differ. The source revises its earlier points. */
  lemma RevisedSeriesBreaksReplay(initial: PortfolioState)
    requires initial.positions == map[]
    ensures var cfg := RevisedConfig();
      && ConfigOk(cfg) && OnlyAveragesMemoise(cfg.catalog) && !SeriesOnlyGrow(cfg)
      && Exhausted(cfg, Drive(cfg, initial, CUT)) && ResultOf(cfg, Drive(cfg, initial, CUT)) != Backtest(cfg, initial)
  {
    hide RevisedConfig, Drive, ConfigOk, Exhausted, Backtest, SeriesOnlyGrow, OnlyAveragesMemoise, Window;
    var cfg := RevisedConfig();
    WholeRun(initial);
    CutRun(initial);
    RevisedDisciplined();
    SampleGate(0);
    FourAdvances();
    AdvancesExhaust(cfg, initial, WHOLE);
    AdvancesExhaust(cfg, initial, CUT);
    UncutReplayEqualsBacktest(cfg, initial, WHOLE);
    var whole, cut := Drive(cfg, initial, WHOLE), Drive(cfg, initial, CUT);
    assert ResultOf(cfg, whole).evaluations == whole.engine.evaluations && ResultOf(cfg, cut).evaluations == cut.engine.evaluations;
    var all: map<Asset, real> := map[0 := 1.0];
    assert 0 in all && all != map[];
    if SeriesOnlyGrow(cfg) {
      ReplayEqualsBacktest(cfg, initial, CUT);
    }
  }
}
