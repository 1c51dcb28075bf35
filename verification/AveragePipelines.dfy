/** Pipelines of moving averages: a universe, a series source, a chain of averages, a selection, the terminal. */
module AveragePipelines {
  import opened Closure
  import opened Collections
  import opened Diagnostics
  import opened Documents
  import opened Evaluator
  import opened Market
  import opened MovingAverage
  import opened Pipelines
  import opened PipelineRuns
  import opened Portfolio
  import opened Preflight
  import opened SeriesNodes
  import opened StrategyEvaluation

  const UNIVERSE: TypeId := 2
  const SOURCE: TypeId := 3
  const AVERAGE: TypeId := 4
  const PICK: TypeId := 5

  const TARGETS: PortName := 2

  /** A fixed universe. */
  function UniverseType(universe: set<Asset>): Implementation {
    Implementation([], [OutputPort(ASSETS, AssetSetType)], (p: Params) => true,
                   (inv: NodeInvocation) => NodeResult([], Outputs(map[ASSETS := Runtime(AssetSetValue(universe))]), inv.Cached()),
                   (p: Params) => 0)
  }

  /** Anything that turns a universe into series; the price node is one. */
  function SourceType(source: NodeInvocation -> NodeResult): Implementation {
    Implementation([InputPort(ASSETS, AssetSetType, true)], [OutputPort(SERIES, TimeSeriesType)], (p: Params) => true, source, (p: Params) => 0)
  }

  function AverageType(): Implementation {
    Implementation([InputPort(SERIES, TimeSeriesType, true)], [OutputPort(SERIES, TimeSeriesType)],
                   (p: Params) => WINDOW in p && p[WINDOW] >= 1, AverageNode, (p: Params) => if WINDOW in p then p[WINDOW] - 1 else 0)
  }

  function PickNode(pick: Series -> Weights, inv: NodeInvocation): NodeResult {
    if SERIES in inv.inputs && inv.inputs[SERIES].TimeSeriesValue?
    then NodeResult([], Outputs(map[TARGETS := Runtime(PortfolioTargetsValue(pick(inv.inputs[SERIES].series)))]), inv.Cached())
    else NodeResult([], Raised, inv.Cached())
  }

  /** Any selection of weights from the last series. */
  function PickType(pick: Series -> Weights): Implementation {
    Implementation([InputPort(SERIES, TimeSeriesType, true)], [OutputPort(TARGETS, PortfolioTargetsType)], (p: Params) => true,
                   (inv: NodeInvocation) => PickNode(pick, inv), (p: Params) => 0)
  }

  function TerminalType(): Implementation {
    Implementation([InputPort(TARGETS, PortfolioTargetsType, true)], [], (p: Params) => true,
                   (inv: NodeInvocation) => NodeResult([], Outputs(map[]), inv.Cached()), (p: Params) => 0)
  }

  function AverageCatalog(universe: set<Asset>, source: NodeInvocation -> NodeResult, pick: Series -> Weights): Catalog {
    Catalog(map[(UNIVERSE, 0) := UniverseType(universe), (SOURCE, 0) := SourceType(source), (AVERAGE, 0) := AverageType(),
                (PICK, 0) := PickType(pick), (TERMINAL_TYPE_ID, 0) := TerminalType()])
  }

  lemma CatalogHas(universe: set<Asset>, source: NodeInvocation -> NodeResult, pick: Series -> Weights)
    ensures var cat := AverageCatalog(universe, source, pick);
      && cat.Resolve(UNIVERSE, 0) == Resolved(UniverseType(universe)) && cat.Resolve(SOURCE, 0) == Resolved(SourceType(source))
      && cat.Resolve(AVERAGE, 0) == Resolved(AverageType()) && cat.Resolve(PICK, 0) == Resolved(PickType(pick))
      && cat.Resolve(TERMINAL_TYPE_ID, 0) == Resolved(TerminalType())
  {
  }

  function StageAt(windows: seq<WindowLength>, k: nat): Stage {
    if k == 0 then Stage(UNIVERSE, map[], ASSETS)
    else if k == 1 then Stage(SOURCE, map[], SERIES)
    else if k < |windows| + 2 then Stage(AVERAGE, map[WINDOW := windows[k - 2]], SERIES)
    else if k == |windows| + 2 then Stage(PICK, map[], TARGETS)
    else Stage(TERMINAL_TYPE_ID, map[], 0)
  }

  function StagesOf(windows: seq<WindowLength>): (r: seq<Stage>)
    ensures |r| == |windows| + 4 && forall k :: 0 <= k < |r| ==> r[k] == StageAt(windows, k)
  {
    seq(|windows| + 4, k requires 0 <= k => StageAt(windows, k))
  }

  lemma StagesFit(universe: set<Asset>, source: NodeInvocation -> NodeResult, pick: Series -> Weights, windows: seq<WindowLength>)
    ensures PipelineOk(AverageCatalog(universe, source, pick), StagesOf(windows))
  {
    hide AverageCatalog;
    CatalogHas(universe, source, pick);
    var cat, stages := AverageCatalog(universe, source, pick), StagesOf(windows);
    forall k | 0 <= k < |stages| ensures StageFits(cat, stages, k) {
    }
  }

  /** What the stages hand on, given the series of the source and of each average. */
  function ValueAt(universe: set<Asset>, series: seq<Series>, pick: Series -> Weights, k: nat): Value
    requires series != []
  {
    if k == 0 then AssetSetValue(universe)
    else if k <= |series| then TimeSeriesValue(series[k - 1])
    else PortfolioTargetsValue(pick(series[|series| - 1]))
  }

  function ValuesOf(universe: set<Asset>, series: seq<Series>, pick: Series -> Weights): (r: seq<Value>)
    requires series != []
    ensures |r| == |series| + 2 && forall k :: 0 <= k < |r| ==> r[k] == ValueAt(universe, series, pick, k)
  {
    seq(|series| + 2, k requires 0 <= k => ValueAt(universe, series, pick, k))
  }

  /** The source yields the first series, and each average turns its predecessor's into its own. */
  ghost predicate Averaged(universe: set<Asset>, source: NodeInvocation -> NodeResult, context: Context, windows: seq<WindowLength>, series: seq<Series>) {
    && |series| == |windows| + 1
    && source(context.Invoked([1], map[], map[ASSETS := AssetSetValue(universe)])).outcome == Outputs(map[SERIES := Runtime(TimeSeriesValue(series[0]))])
    && forall j :: 0 <= j < |windows| ==> AverageStep(context, windows[j], j, series[j], series[j + 1])
  }

  ghost predicate AverageStep(context: Context, window: WindowLength, j: nat, before: Series, after: Series) {
    AverageSeries(before, context.view.sessions, window, if context.memo.Some? then Some(CacheIn(context.memo.value, [j + 2])) else None) == after
  }

  lemma AverageYields(context: Context, window: WindowLength, j: nat, before: Series, after: Series)
    requires AverageStep(context, window, j, before, after)
    ensures AverageNode(context.Invoked([j + 2], map[WINDOW := window], map[SERIES := TimeSeriesValue(before)])).outcome
            == Outputs(map[SERIES := Runtime(TimeSeriesValue(after))])
  {
    hide AverageSeries, AverageTrace, CacheAfter;
  }

  lemma StageYields(universe: set<Asset>, source: NodeInvocation -> NodeResult, pick: Series -> Weights, context: Context,
                    windows: seq<WindowLength>, series: seq<Series>, k: nat)
    requires Averaged(universe, source, context, windows, series) && k < |windows| + 4
    requires PipelineOk(AverageCatalog(universe, source, pick), StagesOf(windows))
    ensures StageFits(AverageCatalog(universe, source, pick), StagesOf(windows), k)
    ensures Yields(AverageCatalog(universe, source, pick), context, StagesOf(windows), ValuesOf(universe, series, pick), k)
  {
    hide AverageCatalog, AverageStep, AverageNode, StagesOf, ValuesOf, PipelineOk;
    CatalogHas(universe, source, pick);
    var cat, stages, vs := AverageCatalog(universe, source, pick), StagesOf(windows), ValuesOf(universe, series, pick);
    assert StageFits(cat, stages, k) by { StageFitsAt(cat, stages, k); }
    if 2 <= k < |windows| + 2 {
      AverageYields(context, windows[k - 2], k - 2, series[k - 2], series[k - 1]);
    }
  }

  lemma StageFitsAt(cat: Catalog, stages: seq<Stage>, k: nat)
    requires PipelineOk(cat, stages) && k < |stages|
    ensures StageFits(cat, stages, k)
  {
  }

  /** Evaluating the pipeline delivers the selection from the last average, and stores every series on the way. */
  lemma AveragesEvaluate(universe: set<Asset>, source: NodeInvocation -> NodeResult, pick: Series -> Weights, context: Context,
                         windows: seq<WindowLength>, series: seq<Series>, bps: real, store: Definitions)
    requires Averaged(universe, source, context, windows, series) && context.view.sessions != [] && KeyedByIdentity(store)
    ensures PipelineOk(AverageCatalog(universe, source, pick), StagesOf(windows))
    ensures var cat, stages, vs := AverageCatalog(universe, source, pick), StagesOf(windows), ValuesOf(universe, series, pick);
      var outcome := Evaluation(cat, PipelineDocument(stages, bps), store, context);
      && outcome.Ok() && outcome.targets == Some(pick(series[|windows|])) && outcome.outputs == StoreUpTo(stages, vs, |vs|)
      && (context.memo.Some? ==> CachesLeft(cat, context, stages, vs, outcome.memo, |stages|))
  {
    hide AverageCatalog, StagesOf, Averaged, PipelineOk, Evaluation, StoreUpTo, CachesLeft, KeyedByIdentity;
    SeriesCount(universe, source, context, windows, series);
    StagesFit(universe, source, pick, windows);
    var cat, stages, vs := AverageCatalog(universe, source, pick), StagesOf(windows), ValuesOf(universe, series, pick);
    forall k | 0 <= k < |stages| ensures StageFits(cat, stages, k) && Yields(cat, context, stages, vs, k) {
      StageYields(universe, source, pick, context, windows, series, k);
    }
    PipelineEvaluation(cat, context, stages, bps, vs, store);
  }

  lemma SeriesCount(universe: set<Asset>, source: NodeInvocation -> NodeResult, context: Context, windows: seq<WindowLength>, series: seq<Series>)
    requires Averaged(universe, source, context, windows, series)
    ensures |series| == |windows| + 1
  {
  }

  /* ---- who uses the memo ---- */

  lemma UniverseIgnores(universe: set<Asset>)
    ensures IgnoresMemo(UniverseType(universe))
  {
  }

  lemma PickIgnores(pick: Series -> Weights)
    ensures IgnoresMemo(PickType(pick))
  {
  }

  lemma TerminalIgnores()
    ensures IgnoresMemo(TerminalType())
  {
  }

  lemma AverageIs()
    ensures IsAverage(AverageType())
  {
    hide AverageNode;
  }

  /** In these catalogs only averages use the memo, if the source does not. */
  lemma OnlyAveragesCache(universe: set<Asset>, source: NodeInvocation -> NodeResult, pick: Series -> Weights)
    requires IgnoresMemo(SourceType(source))
    ensures OnlyAveragesMemoise(AverageCatalog(universe, source, pick))
  {
    hide IgnoresMemo, IsAverage, UniverseType, SourceType, AverageType, PickType, TerminalType;
    UniverseIgnores(universe);
    PickIgnores(pick);
    TerminalIgnores();
    AverageIs();
  }
}
