/** When a chain of moving averages has a point, against the warm-up the program waits for: the declared warm-up of
    quantize/nodes/transform.py, the maximum taken in quantize/evaluator/plan.py, and the gate of quantize/engine/backtest.py. */
module AverageWarmup {
  import opened AveragePipelines
  import opened Closure
  import opened Collections
  import opened Compositionality
  import opened Cycles
  import opened Diagnostics
  import opened Documents
  import opened Engine
  import opened Evaluator
  import opened Fills
  import opened FillLoops
  import opened FlatDocuments
  import opened Instantiation
  import opened Market
  import opened MemoRuns
  import opened MovingAverage
  import opened PipelineRuns
  import opened Pipelines
  import opened Planning
  import opened Portfolio
  import opened Preflight
  import Resolution
  import opened RunInvariants
  import opened Schedule
  import opened SeriesNodes
  import opened Sessions
  import opened StrategyEvaluation
  import opened Validation
  import opened Warmup

  /* ---- the mathematics of a chain ---- */

  /** Sessions the chain needs before the one it has a point at. */
  function Needed(windows: seq<WindowLength>): nat {
    if windows == [] then 0 else Needed(windows[..|windows| - 1]) + windows[|windows| - 1] - 1
  }

  /** What the program waits for: the largest declared warm-up. */
  function Waited(windows: seq<WindowLength>): nat {
    if windows == [] then 0
    else
      var before := Waited(windows[..|windows| - 1]);
      if before as int >= windows[|windows| - 1] as int - 1 then before else windows[|windows| - 1] as int - 1
  }

  lemma {:induction false} SumDefined(history: map<Date, real>, dates: seq<Date>)
    ensures SumOver(history, dates).Some? <==> forall d :: d in dates ==> d in history
  {
    if dates != [] {
      var n := |dates| - 1;
      SumDefined(history, dates[..n]);
      var last := dates[n];
      assert forall d :: d in dates <==> d in dates[..n] || d == last;
    }
  }

  ghost predicate DefinedFrom(history: map<Date, real>, sessions: seq<Date>, start: int) {
    forall i :: 0 <= i < |sessions| ==> (sessions[i] in history <==> i >= start)
  }

  lemma MeanDefined(history: map<Date, real>, sessions: seq<Date>, window: nat, start: int, i: nat)
    requires Ascending(sessions) && DefinedFrom(history, sessions, start) && start >= 0
    requires 1 <= window <= i + 1 <= |sessions|
    ensures MeanAt(history, sessions, window, i).Some? <==> i >= start + window - 1
  {
    var lo := i + 1 - window;
    var dates := sessions[lo..i + 1];
    SumDefined(history, dates);
    if i >= start + window - 1 {
      forall d | d in dates ensures d in history {
        var k :| 0 <= k < |dates| && dates[k] == d;
        assert sessions[lo + k] == d;
      }
    } else {
      assert dates[0] == sessions[lo];
      assert sessions[lo] !in history;
    }
  }

  lemma DictKeys(h: seq<Point>, d: Date)
    ensures d in Dict(h) <==> exists p :: p in h && p.date == d
  {
  }

  /** One average delays a source by its window less one session. */
  lemma AverageDefined(history: map<Date, real>, sessions: seq<Date>, window: nat, start: int)
    requires window >= 1 && Ascending(sessions) && DefinedFrom(history, sessions, start) && start >= 0
    ensures DefinedFrom(Dict(Averages(history, sessions, window, |sessions|)), sessions, start + window - 1)
  {
    hide MeanAt, Averages, Dict;
    var averages := Averages(history, sessions, window, |sessions|);
    forall i | 0 <= i < |sessions| ensures sessions[i] in Dict(averages) <==> i >= start + window - 1 {
      DictKeys(averages, sessions[i]);
      if i >= start + window - 1 {
        MeanDefined(history, sessions, window, start, i);
        var p := Point(sessions[i], MeanAt(history, sessions, window, i).value);
        AveragesMember(history, sessions, window, |sessions|, p);
        assert p in averages;
      } else {
        forall p | p in averages ensures p.date != sessions[i] {
          AveragesMember(history, sessions, window, |sessions|, p);
          var j :| window - 1 <= j < |sessions| && sessions[j] == p.date && MeanAt(history, sessions, window, j) == Some(p.value);
          MeanDefined(history, sessions, window, start, j);
        }
      }
    }
  }

  lemma {:induction false} WaitedAtMostNeeded(windows: seq<WindowLength>)
    ensures Waited(windows) <= Needed(windows)
  {
    if windows != [] {
      WaitedAtMostNeeded(windows[..|windows| - 1]);
    }
  }

  /** With a close at every session, a chain of averages has a point at a session exactly when the windows before it,
      each less one, fit. */
  lemma {:induction false} ChainDefinedIff(prices: seq<Point>, sessions: seq<Date>, windows: seq<WindowLength>)
    requires Ascending(sessions) && forall d :: d in sessions ==> d in Dict(prices)
    ensures DefinedFrom(Dict(Chained(prices, sessions, windows)), sessions, Needed(windows))
  {
    hide Averages, Dict;
    if windows == [] {
      forall i | 0 <= i < |sessions| ensures sessions[i] in Dict(prices) {
        var d := sessions[i];
        assert d in sessions;
      }
    } else {
      var n := |windows| - 1;
      var last := windows[n];
      ChainDefinedIff(prices, sessions, windows[..n]);
      AverageDefined(Dict(Chained(prices, sessions, windows[..n])), sessions, last, Needed(windows[..n]));
    }
  }

  /** No two windows of the chain are longer than one session. */
  ghost predicate OneWide(windows: seq<WindowLength>) {
    forall i, j :: 0 <= i < j < |windows| ==> windows[i] == 1 || windows[j] == 1
  }

  lemma {:induction false} ZeroNeeded(windows: seq<WindowLength>)
    ensures Needed(windows) == 0 <==> forall i :: 0 <= i < |windows| ==> windows[i] == 1
  {
    if windows != [] {
      var n := |windows| - 1;
      var last := windows[n];
      assert forall i :: 0 <= i < n ==> windows[..n][i] == windows[i];
      ZeroNeeded(windows[..n]);
      WaitedAtMostNeeded(windows[..n]);
    }
  }

  lemma {:induction false} WaitedIsNeededIff(windows: seq<WindowLength>)
    ensures Waited(windows) == Needed(windows) <==> OneWide(windows)
  {
    if windows != [] {
      var n := |windows| - 1;
      var front, last := windows[..n], windows[n];
      assert forall i :: 0 <= i < n ==> front[i] == windows[i];
      WaitedIsNeededIff(front);
      WaitedAtMostNeeded(front);
      ZeroNeeded(front);
      if last == 1 {
        assert OneWide(windows) <==> OneWide(front);
      } else {
        assert OneWide(windows) <==> forall i :: 0 <= i < n ==> front[i] == 1;
      }
    }
  }


  /* ---- the document ---- */

  /** The run's document is a chain of averages over a source of series. */
  ghost predicate RunsAverages(cfg: Config, universe: set<Asset>, source: NodeInvocation -> NodeResult, pick: Series -> Weights, windows: seq<WindowLength>) {
    && cfg.document == PipelineDocument(StagesOf(windows), cfg.document.bps)
    && cfg.catalog == AverageCatalog(universe, source, pick) && KeyedByIdentity(cfg.components)
  }

  lemma RunsAveragesOk(cfg: Config, universe: set<Asset>, source: NodeInvocation -> NodeResult, pick: Series -> Weights, windows: seq<WindowLength>)
    requires RunsAverages(cfg, universe, source, pick, windows)
    ensures ConfigOk(cfg) && PipelineOk(cfg.catalog, StagesOf(windows)) && Flat(cfg.document)
  {
    hide AverageCatalog, NodesOf, EdgesOf;
    StagesFit(universe, source, pick, windows);
    PipelineAcceptable(cfg.catalog, StagesOf(windows), cfg.document.bps);
    PipelineNodes(StagesOf(windows));
    forall n | n in NodesOf(StagesOf(windows)) ensures n.Registered? {
      NodesRegistered(StagesOf(windows), n);
    }
  }

  /* ---- its warm-up ---- */

  function DeclaredAt(windows: seq<WindowLength>, k: nat): int {
    if 2 <= k < |windows| + 2 then windows[k - 2] as int - 1 else 0
  }

  lemma StageWarmup(universe: set<Asset>, source: NodeInvocation -> NodeResult, pick: Series -> Weights, windows: seq<WindowLength>, k: nat)
    requires k < |windows| + 4
    ensures var r := AverageCatalog(universe, source, pick).Resolve(StageAt(windows, k).typeId, 0);
      r.Resolved? && r.implementation.warmup(StageAt(windows, k).params) == DeclaredAt(windows, k)
  {
    hide AverageCatalog;
    CatalogHas(universe, source, pick);
  }

  /** The leaves of the pipeline are its stages. */
  lemma PipelineWarmupAt(universe: set<Asset>, source: NodeInvocation -> NodeResult, pick: Series -> Weights, windows: seq<WindowLength>, bps: real, rel: Path)
    ensures var cat, root := AverageCatalog(universe, source, pick), PipelineRoot(StagesOf(windows), bps);
      WarmupAt(cat, root, rel) == if |rel| == 1 && 0 <= rel[0] < |windows| + 4 then Some(DeclaredAt(windows, rel[0])) else None
  {
    hide AverageCatalog, NodesOf, EdgesOf, StagesOf, StageAt;
    var stages := StagesOf(windows);
    PipelineNodes(stages);
    if rel != [] && 0 <= rel[0] < |stages| {
      StageIs(stages, bps, rel[0]);
      StageWarmup(universe, source, pick, windows, rel[0]);
    }
  }

  lemma {:induction false} WaitedIsLargest(windows: seq<WindowLength>)
    ensures forall j :: 0 <= j < |windows| ==> windows[j] as int - 1 <= Waited(windows)
    ensures Waited(windows) == 0 || exists j :: 0 <= j < |windows| && windows[j] as int - 1 == Waited(windows)
  {
    if windows != [] {
      var n := |windows| - 1;
      WaitedIsLargest(windows[..n]);
      assert forall j :: 0 <= j < n ==> windows[..n][j] == windows[j];
    }
  }

  /** The resolved warm-up of the chain is the largest declared one. */
  lemma WarmupIsWaited(cfg: Config, universe: set<Asset>, source: NodeInvocation -> NodeResult, pick: Series -> Weights, windows: seq<WindowLength>)
    requires RunsAverages(cfg, universe, source, pick, windows)
    ensures ConfigOk(cfg) && WarmupOf(cfg) == Waited(windows)
  {
    hide AverageCatalog, PipelineRoot, WarmupTotal, WarmupAt, Resolution.Resolve, KeyedByIdentity, StagesOf, PipelineOk, Flat, Resolution.Resolvable;
    RunsAveragesOk(cfg, universe, source, pick, windows);
    FlatResolves(cfg.catalog, cfg.document, cfg.components);
    var root := PipelineRoot(StagesOf(windows), cfg.document.bps);
    assert WarmupOf(cfg) == WarmupTotal(cfg.catalog, root) by { RootIsPipeline(cfg, windows); }
    TotalIsLargest(cfg.catalog, root);
    WaitedIsLargest(windows);
    forall rel: Path ensures WarmupAt(cfg.catalog, root, rel) == if |rel| == 1 && 0 <= rel[0] < |windows| + 4 then Some(DeclaredAt(windows, rel[0])) else None {
      PipelineWarmupAt(universe, source, pick, windows, cfg.document.bps, rel);
    }
    var total := WarmupTotal(cfg.catalog, root);
    assert WarmupAt(cfg.catalog, root, [0]) == Some(0);
    if total != 0 {
      var rel: Path :| WarmupAt(cfg.catalog, root, rel) == Some(total);
    }
    if Waited(windows) != 0 {
      var j :| 0 <= j < |windows| && windows[j] as int - 1 == Waited(windows);
      assert WarmupAt(cfg.catalog, root, [j + 2]) == Some(Waited(windows));
    }
  }

  lemma RootIsPipeline(cfg: Config, windows: seq<WindowLength>)
    requires cfg.document == PipelineDocument(StagesOf(windows), cfg.document.bps)
    ensures RootOf(cfg.document, map[]) == PipelineRoot(StagesOf(windows), cfg.document.bps)
  {
  }

  /* ---- the gate ---- */

  lemma {:induction false} VisibleIs(calendar: Calendar, n: nat, k: nat)
    requires k < n <= |calendar|
    ensures VisibleSessions(calendar[..n], calendar[k].date) == k + 1
  {
    if k < n - 1 {
      assert calendar[..n][..n - 1] == calendar[..n - 1];
      VisibleIs(calendar, n - 1, k);
    }
  }

  /** At a firing session with a successor to fill in, the gate of a chain opens exactly from session `Waited` on. */
  lemma GateOpensIff(cfg: Config, universe: set<Asset>, source: NodeInvocation -> NodeResult, pick: Series -> Weights, windows: seq<WindowLength>, k: nat)
    requires RunsAverages(cfg, universe, source, pick, windows) && k + 1 < |cfg.Calendar()| && cfg.Calendar()[k].date in cfg.Fires()
    requires cfg.last.Some? ==> cfg.Calendar()[k + 1].date <= cfg.last.value
    ensures ConfigOk(cfg)
    ensures GateAt(cfg, WarmupOf(cfg), cfg.Calendar()[k])
            == if k < Waited(windows) then Declined(WarmupNotSatisfied) else Open(cfg.Calendar()[k + 1])
  {
    hide WarmupOf, Firing, RunsAverages, VisibleSessions, NextSessionAfter, ConfigOk;
    WarmupIsWaited(cfg, universe, source, pick, windows);
    var calendar := cfg.Calendar();
    VisibleIs(calendar, |calendar|, k);
    assert calendar[..|calendar|] == calendar;
    NextSessionIsNext(calendar, k);
  }

  /* ---- what it computes ---- */

  function Smoothed(prices: Series, sessions: seq<Date>, windows: seq<WindowLength>): (r: Series)
    ensures r.Keys == prices.Keys && forall a :: a in prices ==> r[a] == Chained(prices[a], sessions, windows)
  {
    map a | a in prices :: Chained(prices[a], sessions, windows)
  }

  function SmoothedUpTo(prices: Series, sessions: seq<Date>, windows: seq<WindowLength>): (r: seq<Series>)
    ensures |r| == |windows| + 1 && forall j :: 0 <= j < |r| ==> r[j] == Smoothed(prices, sessions, windows[..j])
  {
    seq(|windows| + 1, j requires 0 <= j < |windows| + 1 => Smoothed(prices, sessions, windows[..j]))
  }

  /** An empty memo, or none. */
  ghost predicate NothingCached(context: Context) {
    context.memo.None? || context.memo == Some(map[])
  }

  lemma EmptySlotAgrees(history: map<Date, real>, sessions: seq<Date>, window: nat)
    requires window >= 1
    ensures SlotAgrees(map[], history, sessions, window)
  {
    hide MeanAt;
  }

  /** With nothing cached for the asset, an average is one more step of the chain. */
  lemma AssetStep(history: seq<Point>, sessions: seq<Date>, windows: seq<WindowLength>, j: nat, cache: Option<Cache>, a: Asset)
    requires j < |windows| && Ascending(sessions) && (cache.Some? ==> SlotOf(cache.value, a) == map[])
    ensures AssetAverage(Chained(history, sessions, windows[..j]), sessions, windows[j], cache, a) == Chained(history, sessions, windows[..j + 1])
  {
    hide Averages, Replayed, AssetAverage, SlotAgrees;
    var before := Chained(history, sessions, windows[..j]);
    if cache.Some? {
      EmptySlotAgrees(Dict(before), sessions, windows[j]);
      AssetAverageExactIff(before, sessions, windows[j], cache.value, a);
    }
    PlainAverage(before, sessions, windows[j], a);
    assert windows[..j + 1][..j] == windows[..j];
  }

  lemma ChainStep(context: Context, prices: Series, windows: seq<WindowLength>, j: nat)
    requires NothingCached(context) && j < |windows| && Ascending(context.view.sessions)
    ensures AverageStep(context, windows[j], j, Smoothed(prices, context.view.sessions, windows[..j]), Smoothed(prices, context.view.sessions, windows[..j + 1]))
  {
    hide AssetAverage, Chained;
    var sessions := context.view.sessions;
    var cache: Option<Cache> := if context.memo.Some? then Some(CacheIn(context.memo.value, [j + 2])) else None;
    forall a | a in prices
      ensures AssetAverage(Chained(prices[a], sessions, windows[..j]), sessions, windows[j], cache, a) == Chained(prices[a], sessions, windows[..j + 1])
    {
      AssetStep(prices[a], sessions, windows, j, cache, a);
    }
    assert AverageSeries(Smoothed(prices, sessions, windows[..j]), sessions, windows[j], cache) == Smoothed(prices, sessions, windows[..j + 1]);
  }

  lemma PlainAverage(history: seq<Point>, sessions: seq<Date>, window: nat, asset: Asset)
    requires window >= 1
    ensures AssetAverage(history, sessions, window, None, asset) == Average(history, sessions, window)
  {
    hide Averages;
  }

  /** The price node feeds the chain, and each average takes one step along it. */
  lemma ChainAveraged(universe: set<Asset>, context: Context, windows: seq<WindowLength>)
    requires NothingCached(context) && Ascending(context.view.sessions)
    ensures Averaged(universe, PriceNode, context, windows, SmoothedUpTo(Prices(context.view, universe), context.view.sessions, windows))
  {
    hide AverageStep, Chained, SeriesNodes.Missing, Observed;
    var prices := Prices(context.view, universe);
    var series := SmoothedUpTo(prices, context.view.sessions, windows);
    assert series[0] == prices by { UnsmoothedIs(prices, context.view.sessions, windows); }
    forall j | 0 <= j < |windows| ensures AverageStep(context, windows[j], j, series[j], series[j + 1]) {
      ChainStep(context, prices, windows, j);
    }
  }

  lemma UnsmoothedIs(prices: Series, sessions: seq<Date>, windows: seq<WindowLength>)
    ensures Smoothed(prices, sessions, windows[..0]) == prices
  {
  }

  /* ---- the first evaluation ---- */

  lemma {:induction false} WholeCalendar(calendar: seq<MarketSession>)
    ensures RunWindow(calendar, None, None) == calendar
  {
    if calendar != [] {
      var n := |calendar| - 1;
      WholeCalendar(calendar[..n]);
      assert calendar == calendar[..n] + [calendar[n]];
    }
  }

  /** Until a run first evaluates, its memo is empty and it has recorded no evaluation. */
  lemma {:induction false} NothingEvaluatedYet(cfg: Config, initial: PortfolioState, k: nat)
    requires ConfigOk(cfg) && k <= |Window(cfg)| && forall i :: 0 <= i < k ==> !EvaluatesAt(cfg, i)
    ensures var e := Steps(cfg, WarmupOf(cfg), Initial(initial), Window(cfg)[..k]).engine; e.memo == Some(map[]) && e.evaluations == []
  {
    hide Window, WarmupOf, ConfigOk, Engine.Step, GateAt;
    if k > 0 {
      NothingEvaluatedYet(cfg, initial, k - 1);
      StepsSnoc(cfg, WarmupOf(cfg), Initial(initial), Window(cfg), k - 1);
      var before := Steps(cfg, WarmupOf(cfg), Initial(initial), Window(cfg)[..k - 1]);
      if before.failure.None? {
        assert !EvaluatesAt(cfg, k - 1);
        QuietStep(cfg, WarmupOf(cfg), before.engine, Window(cfg)[k - 1]);
      }
    }
  }

  lemma QuietClose(cfg: Config, warmup: int, e: EngineState, s: MarketSession)
    requires ConfigOk(cfg) && !GateAt(cfg, warmup, s).Open?
    ensures KeepsEvaluations(e, AtClose(cfg, warmup, e, s).engine)
  {
    hide AsOf, GateAt, KeyedByIdentity, Resolution.Resolvable, Evaluation, AfterOutcome;
  }

  /** A session that does not evaluate leaves the memo and the evaluations alone. */
  lemma QuietStep(cfg: Config, warmup: int, e: EngineState, s: MarketSession)
    requires ConfigOk(cfg) && !GateAt(cfg, warmup, s).Open?
    ensures KeepsEvaluations(e, Step(cfg, warmup, e, s).engine)
  {
    hide AtOpen, AtMark, AtClose, GateAt, ConfigOk;
    OpenKeeps(cfg, e, s);
    var filled := AtOpen(cfg, e, s);
    MarkKeeps(cfg, filled.engine, s);
    QuietClose(cfg, warmup, AtMark(cfg, filled.engine, s).engine, s);
  }

  /** The closes of the first n sessions are all known by the close of the last of them. */
  ghost predicate ClosedOnTime(d: DataSet, asset: Asset, k: nat)
    requires k < |d.calendar|
  {
    forall i :: 0 <= i <= k ==> d.calendar[i].date in Dict(AsOf(d, d.calendar[k].closeAt).CloseHistory(asset))
  }

  /** Evaluated at session k with nothing cached, the last average has a point at that session exactly when the windows, each
      less one, fit into the sessions before it. */
  lemma ChainEvaluated(cfg: Config, universe: set<Asset>, pick: Series -> Weights, windows: seq<WindowLength>, asset: Asset, k: nat, memo: Option<Memo>)
    requires RunsAverages(cfg, universe, PriceNode, pick, windows) && k < |cfg.data.calendar| && asset in universe && ClosedOnTime(cfg.data, asset, k)
    requires memo.None? || memo == Some(map[])
    ensures ConfigOk(cfg)
    ensures var outcome := Evaluation(cfg.catalog, cfg.document, cfg.components, Context(AsOf(cfg.data, cfg.data.calendar[k].closeAt), memo));
      && outcome.Ok() && HoldsSeries(outcome.outputs, LastAverage(windows), asset)
      && (cfg.data.calendar[k].date in Dict(outcome.outputs[LastAverage(windows)].series[asset]) <==> k >= Needed(windows))
  {
    hide AverageCatalog, StagesOf, PipelineOk, Evaluation, CachesLeft, Dict, AsOf, Averaged, Chained, PipelineDocument, StoreUpTo, Flat, Resolution.Resolvable;
    RunsAveragesOk(cfg, universe, PriceNode, pick, windows);
    var t := cfg.data.calendar[k].closeAt;
    var context := Context(AsOf(cfg.data, t), memo);
    var sessions := context.view.sessions;
    SessionsAt(cfg.data, k);
    var prices := Prices(context.view, universe);
    var series := SmoothedUpTo(prices, sessions, windows);
    ChainAveraged(universe, context, windows);
    AveragesEvaluate(universe, PriceNode, pick, context, windows, series, cfg.document.bps, cfg.components);
    var vs := ValuesOf(universe, series, pick);
    StoredStage(StagesOf(windows), vs, |vs|, |windows| + 1);
    assert windows[..|windows|] == windows;
    assert vs[|windows| + 1] == TimeSeriesValue(Smoothed(prices, sessions, windows));
    forall d | d in sessions ensures d in Dict(prices[asset]) {
      var i :| 0 <= i < |sessions| && sessions[i] == d;
    }
    ChainDefinedIff(prices[asset], sessions, windows);
  }

  /** Where the last average stores its series. */
  function LastAverage(windows: seq<WindowLength>): Address {
    ([|windows| + 1], SERIES)
  }

  ghost predicate HoldsSeries(store: Store, a: Address, asset: Asset) {
    a in store && store[a].TimeSeriesValue? && asset in store[a].series
  }

  /** The documented promise of the warm-up gate, made exact. A daily run of a chain of averages evaluates for the first time at
      session `Waited` of the calendar, with an empty memo; with every close on time, the end of the chain is defined there if
      and only if at most one of its windows is longer than one session. */
  lemma FirstEvaluationDefinedIff(cfg: Config, universe: set<Asset>, pick: Series -> Weights, windows: seq<WindowLength>, initial: PortfolioState, asset: Asset)
    requires RunsAverages(cfg, universe, PriceNode, pick, windows) && cfg.schedule == Daily && cfg.first.None? && cfg.last.None?
    requires Waited(windows) + 1 < |cfg.data.calendar| && asset in universe && ClosedOnTime(cfg.data, asset, Waited(windows))
    ensures ConfigOk(cfg) && Window(cfg) == cfg.data.calendar
    ensures EvaluatesAt(cfg, Waited(windows)) && forall i :: 0 <= i < Waited(windows) ==> !EvaluatesAt(cfg, i)
    ensures Steps(cfg, WarmupOf(cfg), Initial(initial), Window(cfg)[..Waited(windows)]).engine.memo == Some(map[])
    ensures var s := cfg.data.calendar[Waited(windows)];
      var outcome := Evaluation(cfg.catalog, cfg.document, cfg.components, Context(AsOf(cfg.data, s.closeAt), Some(map[])));
      && outcome.Ok() && HoldsSeries(outcome.outputs, LastAverage(windows), asset)
      && (s.date in Dict(outcome.outputs[LastAverage(windows)].series[asset]) <==> OneWide(windows))
  {
    hide RunsAverages, WarmupOf, Evaluation, Dict, AsOf, ConfigOk, GateAt, ClosedOnTime, HoldsSeries, Steps, Firing;
    var n := Waited(windows);
    WholeCalendar(cfg.data.calendar);
    ChainEvaluated(cfg, universe, pick, windows, asset, n, Some(map[]));
    forall i | 0 <= i <= n ensures EvaluatesAt(cfg, i) <==> i == n {
      assert cfg.data.calendar[i].date in cfg.Fires() by { DailyFires(cfg, i); }
      GateOpensIff(cfg, universe, PriceNode, pick, windows, i);
    }
    NothingEvaluatedYet(cfg, initial, n);
    WaitedAtMostNeeded(windows);
    WaitedIsNeededIff(windows);
  }

  lemma DailyFires(cfg: Config, i: nat)
    requires cfg.schedule == Daily && i < |cfg.data.calendar|
    ensures cfg.data.calendar[i].date in cfg.Fires()
  {
    var dates := DatesOf(cfg.data.calendar);
    assert dates[i] == cfg.data.calendar[i].date;
  }
}
