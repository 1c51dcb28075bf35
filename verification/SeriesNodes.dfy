/** The node types that produce series: `data.price` of quantize/nodes/data.py and `transform.moving_average` of
    quantize/nodes/transform.py, the one user of the run's memo. */
module SeriesNodes {
  import opened Collections
  import opened Documents
  import opened Market
  import opened MovingAverage

  const WINDOW: ParamName := 0
  const SERIES: PortName := 0
  const ASSETS: PortName := 1

  const COMPUTED := 0
  const EXCLUDED := 1
  const OBSERVED := 2
  const MISSING_ASSET := 3

  type Series = map<Asset, seq<Point>>

  function SlotOf(cache: Cache, asset: Asset): map<Date, real> {
    if asset in cache then cache[asset] else map[]
  }

  /* ---- the moving average ---- */

  /** One asset: plain, or replayed over what the memo has for it. */
  function AssetAverage(history: seq<Point>, sessions: seq<Date>, window: nat, cache: Option<Cache>, asset: Asset): seq<Point>
    requires window >= 1
  {
    match cache
    case None => Average(history, sessions, window)
    case Some(c) => Replayed(Dict(history), sessions, window, SlotOf(c, asset), |sessions|).0
  }

  function AverageSeries(series: Series, sessions: seq<Date>, window: nat, cache: Option<Cache>): (r: Series)
    requires window >= 1
    ensures r.Keys == series.Keys
  {
    map a | a in series :: AssetAverage(series[a], sessions, window, cache, a)
  }

  /** Each asset's slot after its replay; the slots of other assets are left alone. */
  function CacheAfter(series: Series, sessions: seq<Date>, window: nat, cache: Cache): (r: Cache)
    requires window >= 1
    ensures r.Keys == series.Keys + cache.Keys
  {
    map a | a in series.Keys + cache.Keys ::
      if a in series then Replayed(Dict(series[a]), sessions, window, SlotOf(cache, a), |sessions|).1 else cache[a]
  }

  /** The assets without a point, and those with one, in asset order. */
  function Excluded(output: Series, assets: seq<Asset>): seq<Emission>
    requires forall a :: a in assets ==> a in output
  {
    if assets == [] then []
    else
      var last := assets[|assets| - 1];
      Excluded(output, assets[..|assets| - 1]) + if output[last] == [] then [Emission(EXCLUDED, [last])] else []
  }

  function Computed(output: Series, assets: seq<Asset>): seq<Asset>
    requires forall a :: a in assets ==> a in output
  {
    if assets == [] then []
    else
      var last := assets[|assets| - 1];
      Computed(output, assets[..|assets| - 1]) + if output[last] == [] then [] else [last]
  }

  function AverageTrace(output: Series): seq<Emission> {
    Excluded(output, Sorted(output.Keys)) + [Emission(COMPUTED, Computed(output, Sorted(output.Keys)))]
  }

  /** Parameters and input are of the kinds the code reads; parameter validation has checked the window. */
  predicate AverageReady(inv: NodeInvocation) {
    && WINDOW in inv.params && inv.params[WINDOW] >= 1
    && SERIES in inv.inputs && inv.inputs[SERIES].TimeSeriesValue?
  }

  function AverageNode(inv: NodeInvocation): NodeResult {
    if !AverageReady(inv) then NodeResult([], Raised, inv.Cached())
    else
      var series, window := inv.inputs[SERIES].series, inv.params[WINDOW];
      var output := AverageSeries(series, inv.view.sessions, window, inv.cache);
      NodeResult(AverageTrace(output), Outputs(map[SERIES := Runtime(TimeSeriesValue(output))]),
                 if inv.cache.Some? then CacheAfter(series, inv.view.sessions, window, inv.cache.value) else map[])
  }

  /* ---- the price node ---- */

  function Missing(view: DataView, assets: seq<Asset>): seq<Emission> {
    if assets == [] then []
    else
      var last := assets[|assets| - 1];
      Missing(view, assets[..|assets| - 1]) + if view.CloseHistory(last) == [] then [Emission(MISSING_ASSET, [last])] else []
  }

  /** Per asset: how many observations, and the dates of the first and the last one. */
  function Observed(view: DataView, assets: seq<Asset>): seq<Json> {
    if assets == [] then []
    else
      var last := assets[|assets| - 1];
      var h := view.CloseHistory(last);
      Observed(view, assets[..|assets| - 1]) + [last, |h|] + if h == [] then [] else [h[0].date, h[|h| - 1].date]
  }

  function Prices(view: DataView, assets: set<Asset>): (r: Series)
    ensures r.Keys == assets
  {
    map a | a in assets :: view.CloseHistory(a)
  }

  function PriceNode(inv: NodeInvocation): NodeResult {
    if !(ASSETS in inv.inputs && inv.inputs[ASSETS].AssetSetValue?) then NodeResult([], Raised, inv.Cached())
    else
      var assets := inv.inputs[ASSETS].assets;
      NodeResult(Missing(inv.view, Sorted(assets)) + [Emission(OBSERVED, Observed(inv.view, Sorted(assets)))],
                 Outputs(map[SERIES := Runtime(TimeSeriesValue(Prices(inv.view, assets)))]), inv.Cached())
  }

  /* ---- using the memo, or not ---- */

  /** The same result, whatever is left in the memo. */
  ghost predicate SameResult(a: NodeResult, b: NodeResult) {
    a.emitted == b.emitted && a.outcome == b.outcome
  }

  /** The node type neither reads nor writes its part of the memo. */
  ghost predicate IgnoresMemo(i: Implementation) {
    forall inv :: SameResult(i.evaluate(inv), i.evaluate(inv.Plain())) && i.evaluate(inv).cache == inv.Cached()
  }

  ghost predicate IsAverage(i: Implementation) {
    forall inv :: i.evaluate(inv) == AverageNode(inv)
  }

  /** As in the program's own catalog: only the moving average uses the memo. */
  ghost predicate OnlyAveragesMemoise(cat: Catalog) {
    forall k :: k in cat.byKey ==> IgnoresMemo(cat.byKey[k]) || IsAverage(cat.byKey[k])
  }

  /** Every cached point of every input asset is the mean its window has now. */
  ghost predicate CacheExact(inv: NodeInvocation)
    requires AverageReady(inv)
  {
    forall a :: a in inv.inputs[SERIES].series ==>
      SlotAgrees(SlotOf(inv.Cached(), a), Dict(inv.inputs[SERIES].series[a]), inv.view.sessions, inv.params[WINDOW])
  }

  lemma AssetAverageExactIff(history: seq<Point>, sessions: seq<Date>, window: nat, cache: Cache, asset: Asset)
    requires window >= 1 && Ascending(sessions)
    ensures AssetAverage(history, sessions, window, Some(cache), asset) == AssetAverage(history, sessions, window, None, asset)
      <==> SlotAgrees(SlotOf(cache, asset), Dict(history), sessions, window)
  {
    hide Replayed, Averages, AgreesBelow;
    ReplayExactIff(Dict(history), sessions, window, SlotOf(cache, asset), |sessions|);
  }

  /** The memo is invisible in one invocation of the moving average if and only if every cached point is exact. */
  lemma AverageTransparentIff(inv: NodeInvocation)
    requires AverageReady(inv) && inv.cache.Some? && Ascending(inv.view.sessions)
    ensures SameResult(AverageNode(inv), AverageNode(inv.Plain())) <==> CacheExact(inv)
  {
    hide AssetAverage, SlotAgrees, CacheAfter, AverageTrace;
    var series, sessions, window := inv.inputs[SERIES].series, inv.view.sessions, inv.params[WINDOW];
    var with, without := AverageSeries(series, sessions, window, inv.cache), AverageSeries(series, sessions, window, None);
    forall a | a in series ensures with[a] == without[a] <==> SlotAgrees(SlotOf(inv.Cached(), a), Dict(series[a]), sessions, window) {
      AssetAverageExactIff(series[a], sessions, window, inv.cache.value, a);
    }
    var ports, ports' := map[SERIES := Runtime(TimeSeriesValue(with))], map[SERIES := Runtime(TimeSeriesValue(without))];
    assert ports == ports' ==> ports[SERIES] == ports'[SERIES];
    assert with == without <==> forall a :: a in series ==> with[a] == without[a];
  }

  /** An entry of a cache. */
  ghost predicate HasEntry(cache: Cache, asset: Asset, day: Date, v: real) {
    asset in cache && day in cache[asset] && cache[asset][day] == v
  }

  /** The mean that the input series has at the session dated day. */
  ghost predicate HasMean(series: Series, sessions: seq<Date>, window: int, asset: Asset, day: Date, v: real) {
    window >= 1 && asset in series && ComputedAt(Dict(series[asset]), sessions, window, |sessions|, day, v)
  }

  /** What an average leaves in the memo: what was there, or the mean of a window it was just given. */
  lemma AverageLeaves(inv: NodeInvocation, asset: Asset, day: Date, v: real)
    requires HasEntry(AverageNode(inv).cache, asset, day, v)
    ensures HasEntry(inv.Cached(), asset, day, v)
      || (AverageReady(inv) && HasMean(inv.inputs[SERIES].series, inv.view.sessions, inv.params[WINDOW], asset, day, v))
  {
    hide Replayed, Averages, AverageTrace, AverageSeries, ComputedAt;
    if AverageReady(inv) {
      var series, window := inv.inputs[SERIES].series, inv.params[WINDOW];
      if asset in series {
        ReplayedCache(Dict(series[asset]), inv.view.sessions, window, SlotOf(inv.Cached(), asset), |inv.view.sessions|);
      }
    }
  }

  /* ---- series that only grow ---- */

  /** Every point the earlier series has, the later one has too, asset by asset. */
  ghost predicate SeriesGrow(earlier: Series, later: Series) {
    forall a :: a in earlier && a in later ==> Extends(Dict(later[a]), Dict(earlier[a]))
  }

  ghost predicate ValueGrows(v: Value, w: Value) {
    v.TimeSeriesValue? && w.TimeSeriesValue? ==> SeriesGrow(v.series, w.series)
  }

  ghost predicate InputsGrow(earlier: map<PortName, Value>, later: map<PortName, Value>) {
    forall p :: p in earlier && p in later ==> ValueGrows(earlier[p], later[p])
  }

  ghost predicate PortGrows(a: map<PortName, Produced>, b: map<PortName, Produced>, p: PortName) {
    p in a && p in b && a[p].Runtime? && b[p].Runtime? ==> ValueGrows(a[p].value, b[p].value)
  }

  ghost predicate OutcomeGrows(earlier: NodeOutcome, later: NodeOutcome) {
    earlier.Outputs? && later.Outputs? ==> forall p :: PortGrows(earlier.ports, later.ports, p)
  }

  /** The same node at two instants over one dataset, without a memo, on growing inputs. */
  ghost predicate Later(d: DataSet, earlier: NodeInvocation, later: NodeInvocation) {
    && earlier.path == later.path && earlier.params == later.params
    && earlier.cache.None? && later.cache.None?
    && earlier.view == AsOf(d, earlier.view.instant) && later.view == AsOf(d, later.view.instant)
    && earlier.view.instant <= later.view.instant
    && InputsGrow(earlier.inputs, later.inputs)
  }

  /** A node type that turns growing series into growing series. */
  ghost predicate KeepsGrowth(d: DataSet, i: Implementation) {
    forall earlier, later :: Later(d, earlier, later) ==> OutcomeGrows(i.evaluate(earlier).outcome, i.evaluate(later).outcome)
  }

  ghost predicate IsPrice(i: Implementation) {
    forall inv :: i.evaluate(inv) == PriceNode(inv)
  }

  lemma PriceIgnoresMemo(i: Implementation)
    requires IsPrice(i)
    ensures IgnoresMemo(i)
  {
    hide Missing, Observed;
  }

  lemma SessionsGrow(d: DataSet, t: Instant, u: Instant)
    requires t <= u
    ensures AsOf(d, t).sessions <= AsOf(d, u).sessions && Ascending(AsOf(d, u).sessions)
  {
    ClosedByGrows(d.calendar, t, u);
    var n := CountClosed(d.calendar, u);
    ClosedByPrefix(d.calendar, u, n);
  }

  lemma HistoryAscends(d: DataSet, t: Instant, asset: Asset)
    ensures AscendingDates(AsOf(d, t).CloseHistory(asset))
  {
    if asset in d.observations {
      assert SeriesOk(d.calendar, d.observations[asset]);
      VisibleClosesAscend(d.observations[asset], t);
    }
  }

  /** A close once visible stays visible, with the same value. */
  lemma PricesGrow(d: DataSet, t: Instant, u: Instant, asset: Asset)
    requires t <= u
    ensures Extends(Dict(AsOf(d, u).CloseHistory(asset)), Dict(AsOf(d, t).CloseHistory(asset)))
  {
    hide AsOf, Dict, VisibleCloses, DataView.CloseHistory;
    var a, b := AsOf(d, t).CloseHistory(asset), AsOf(d, u).CloseHistory(asset);
    HistoryAscends(d, u, asset);
    forall day | day in Dict(a) ensures day in Dict(b) && Dict(b)[day] == Dict(a)[day] {
      var p := Point(day, Dict(a)[day]);
      VisibilityMonotone(d, t, u, asset, p);
      DictAscending(b, p);
    }
  }

  lemma PriceKeepsGrowth(d: DataSet, i: Implementation)
    requires IsPrice(i)
    ensures KeepsGrowth(d, i)
  {
    hide AsOf, Dict, DataView.CloseHistory, Missing, Observed, Extends;
    forall earlier, later | Later(d, earlier, later) ensures OutcomeGrows(i.evaluate(earlier).outcome, i.evaluate(later).outcome) {
      var t, u := earlier.view.instant, later.view.instant;
      forall a ensures Extends(Dict(later.view.CloseHistory(a)), Dict(earlier.view.CloseHistory(a))) {
        PricesGrow(d, t, u, a);
      }
    }
  }

  lemma AverageSeriesGrow(d: DataSet, t: Instant, u: Instant, earlier: Series, later: Series, window: nat)
    requires t <= u && window >= 1 && SeriesGrow(earlier, later)
    ensures SeriesGrow(AverageSeries(earlier, AsOf(d, t).sessions, window, None), AverageSeries(later, AsOf(d, u).sessions, window, None))
  {
    hide AsOf, Dict, Averages, Extends;
    SessionsGrow(d, t, u);
    forall a | a in earlier && a in later
      ensures Extends(Dict(Average(later[a], AsOf(d, u).sessions, window)), Dict(Average(earlier[a], AsOf(d, t).sessions, window)))
    {
      AveragesExtend(Dict(earlier[a]), Dict(later[a]), AsOf(d, t).sessions, AsOf(d, u).sessions, window);
    }
  }

  /** Averages of growing series grow: so averages of averages are covered too. */
  lemma AverageKeepsGrowth(d: DataSet, i: Implementation)
    requires IsAverage(i)
    ensures KeepsGrowth(d, i)
  {
    hide AsOf, AverageSeries, CacheAfter, AverageTrace, SeriesGrow;
    forall earlier, later | Later(d, earlier, later) ensures OutcomeGrows(i.evaluate(earlier).outcome, i.evaluate(later).outcome) {
      if AverageReady(earlier) && AverageReady(later) {
        assert ValueGrows(earlier.inputs[SERIES], later.inputs[SERIES]);
        AverageSeriesGrow(d, earlier.view.instant, later.view.instant, earlier.inputs[SERIES].series, later.inputs[SERIES].series,
                          earlier.params[WINDOW]);
      }
    }
  }
}
