/** What the series nodes deliver, in terms of observations and sessions: quantize/nodes/transform.py and
    quantize/nodes/data.py. */
module Means {
  import opened Collections
  import opened Documents
  import opened Market
  import opened MovingAverage
  import opened SeriesNodes

  /* ---- windows ---- */

  /** The values that a series has in the window ending at session i. */
  function ValuesIn(history: seq<Point>, sessions: seq<Date>, window: nat, i: nat): (m: map<int, real>)
    requires 1 <= window <= i + 1 <= |sessions|
  {
    var dates := sessions[i + 1 - window..i + 1];
    map d | d in dates && ValueAt(history, d).Some? :: ValueAt(history, d).value
  }

  /** The point is dated to a session whose whole window is observed, and `window` times its value is their sum. */
  ghost predicate IsMean(history: seq<Point>, sessions: seq<Date>, window: nat, p: Point)
    requires window >= 1
  {
    exists i :: IsMeanAt(history, sessions, window, i, p)
  }

  ghost predicate IsMeanAt(history: seq<Point>, sessions: seq<Date>, window: nat, i: int, p: Point)
    requires window >= 1
  {
    window - 1 <= i < |sessions| && sessions[i] == p.date
    && (forall k :: i - window < k <= i ==> ValueAt(history, sessions[k]).Some?)
    && p.value * (window as real) == SumMap(ValuesIn(history, sessions, window, i))
  }

  lemma DictIs(history: seq<Point>, d: Date)
    requires AscendingDates(history)
    ensures Get(Dict(history), d) == ValueAt(history, d)
  {
    var v := ValueAt(history, d);
    if v.Some? {
      DictAscending(history, Point(d, v.value));
    }
  }

  lemma {:induction false} SumOverKeys(m: map<Date, real>, dates: seq<Date>)
    ensures SumOver(m, dates).Some? <==> forall d :: d in dates ==> d in m
    ensures (forall d :: d in dates ==> d in m) ==> SumOver(m, dates) == Some(SumKeys(m, dates))
  {
    if dates != [] {
      var front, last := dates[..|dates| - 1], dates[|dates| - 1];
      SumOverKeys(m, front);
      assert forall d :: d in dates <==> d in front || d == last;
    }
  }

  /** The sessions of the window, by index and as a slice. */
  lemma WindowIndices(sessions: seq<Date>, window: nat, i: nat)
    requires 1 <= window <= i + 1 <= |sessions|
    ensures var dates := sessions[i + 1 - window..i + 1];
      |dates| == window && (forall k :: i - window < k <= i ==> sessions[k] in dates)
      && forall d :: d in dates ==> exists k :: i - window < k <= i && sessions[k] == d
  {
    var dates := sessions[i + 1 - window..i + 1];
    forall k | i - window < k <= i ensures sessions[k] in dates {
      assert dates[k - (i + 1 - window)] == sessions[k];
    }
    forall d | d in dates ensures exists k :: i - window < k <= i && sessions[k] == d {
      var j :| 0 <= j < |dates| && dates[j] == d;
      assert sessions[j + i + 1 - window] == d;
    }
  }

  /** The window is complete: the series has a value at each of its sessions. */
  lemma CompleteIff(history: seq<Point>, sessions: seq<Date>, dates: seq<Date>, window: nat, i: nat)
    requires AscendingDates(history) && 1 <= window <= i + 1 <= |sessions|
    requires forall k :: i - window < k <= i ==> sessions[k] in dates
    requires forall d :: d in dates ==> exists k :: i - window < k <= i && sessions[k] == d
    ensures (forall d :: d in dates ==> d in Dict(history)) <==> forall k :: i - window < k <= i ==> ValueAt(history, sessions[k]).Some?
  {
    hide Dict, ValueAt;
    forall d ensures d in Dict(history) <==> ValueAt(history, d).Some? {
      DictIs(history, d);
    }
  }

  /** A complete window sums to the sum of its values. */
  lemma WindowSum(history: seq<Point>, sessions: seq<Date>, window: nat, i: nat)
    requires AscendingDates(history) && Ascending(sessions) && 1 <= window <= i + 1 <= |sessions|
    ensures SumOver(Dict(history), sessions[i + 1 - window..i + 1]) ==
      if forall k :: i - window < k <= i ==> ValueAt(history, sessions[k]).Some?
      then Some(SumMap(ValuesIn(history, sessions, window, i))) else None
  {
    hide Dict, SumOver, SumKeys, SumMap, ValueAt;
    var dates := sessions[i + 1 - window..i + 1];
    WindowIndices(sessions, window, i);
    CompleteIff(history, sessions, dates, window, i);
    SumOverKeys(Dict(history), dates);
    if forall d :: d in dates ==> d in Dict(history) {
      WindowTotal(history, sessions, window, i);
    }
  }

  lemma WindowTotal(history: seq<Point>, sessions: seq<Date>, window: nat, i: nat)
    requires AscendingDates(history) && Ascending(sessions) && 1 <= window <= i + 1 <= |sessions|
    requires forall d :: d in sessions[i + 1 - window..i + 1] ==> d in Dict(history)
    ensures SumKeys(Dict(history), sessions[i + 1 - window..i + 1]) == SumMap(ValuesIn(history, sessions, window, i))
  {
    hide Dict, SumOver, SumKeys, SumMap, ValueAt;
    var dates, m := sessions[i + 1 - window..i + 1], ValuesIn(history, sessions, window, i);
    forall d ensures Get(Dict(history), d) == ValueAt(history, d) {
      DictIs(history, d);
    }
    WindowIndices(sessions, window, i);
    SumKeysSame(Dict(history), m, dates);
    SumKeysIsSum(m, dates);
  }

  /** The mean of a complete window, times its length, is the sum of its values. */
  lemma MeanAtIs(history: seq<Point>, sessions: seq<Date>, window: nat, i: nat, v: real)
    requires AscendingDates(history) && Ascending(sessions) && 1 <= window <= i + 1 <= |sessions|
    ensures MeanAt(Dict(history), sessions, window, i) == Some(v) <==> IsMeanAt(history, sessions, window, i, Point(sessions[i], v))
  {
    hide Dict, SumOver, SumMap, ValuesIn, ValueAt;
    WindowSum(history, sessions, window, i);
    DividedBack(SumMap(ValuesIn(history, sessions, window, i)), window as real, v);
  }

  lemma DividedBack(total: real, n: real, v: real)
    requires n > 0.0
    ensures total / n == v <==> v * n == total
  {
  }

  /** What the average of a series is: a point for exactly the sessions whose window is complete, its mean. */
  lemma AverageMeans(history: seq<Point>, sessions: seq<Date>, window: nat)
    requires AscendingDates(history) && Ascending(sessions) && window >= 1
    ensures AscendingDates(Average(history, sessions, window))
    ensures forall p :: p in Average(history, sessions, window) <==> IsMean(history, sessions, window, p)
  {
    hide Dict, Averages, MeanAt, SumMap;
    AveragesDates(Dict(history), sessions, window, |sessions|);
    forall p ensures p in Average(history, sessions, window) <==> IsMean(history, sessions, window, p) {
      AveragesMember(Dict(history), sessions, window, |sessions|, p);
      forall i | window - 1 <= i < |sessions|
        ensures sessions[i] == p.date ==> (MeanAt(Dict(history), sessions, window, i) == Some(p.value) <==> IsMeanAt(history, sessions, window, i, p))
      {
        MeanAtIs(history, sessions, window, i, p.value);
      }
    }
  }

  lemma {:induction false} SumBetween(m: map<int, real>, low: real, high: real)
    requires forall k :: k in m ==> low <= m[k] <= high
    ensures Times(low, |m| as real) <= SumMap(m) <= Times(high, |m| as real)
    decreases |m|
  {
    if m == map[] {
      assert Times(low, 0.0) == 0.0 && Times(high, 0.0) == 0.0;
    } else {
      var k := MinOf(m.Keys);
      var rest := m - {k};
      SumBetween(rest, low, high);
      assert rest.Keys == m.Keys - {k};
      OneMore(low, |rest|);
      OneMore(high, |rest|);
    }
  }

  lemma OneMore(x: real, n: nat)
    ensures Times(x, (n + 1) as real) == Times(x, n as real) + x
  {
  }

  lemma AsMany(dates: seq<Date>, m: map<int, real>)
    requires Ascending(dates) && forall d :: d in dates <==> d in m
    ensures |m| == |dates|
  {
    assert forall d :: d in dates ==> d in m.Keys;
    DistinctBound(dates, m.Keys);
    AtLeast(dates, m.Keys);
  }

  lemma {:induction false} AtLeast(dates: seq<Date>, keys: set<int>)
    requires forall d :: d in keys ==> d in dates
    ensures |keys| <= |dates|
  {
    if dates == [] {
      EmptySet(keys);
    } else {
      var last := dates[|dates| - 1];
      AtLeast(dates[..|dates| - 1], keys - {last});
      if last in keys { assert |keys - {last}| == |keys| - 1; } else { assert keys - {last} == keys; }
    }
  }

  lemma WindowBetween(history: seq<Point>, sessions: seq<Date>, window: nat, i: nat, low: real, high: real)
    requires Ascending(sessions) && 1 <= window <= i + 1 <= |sessions|
    requires forall k :: i - window < k <= i ==> ValueAt(history, sessions[k]).Some? && low <= ValueAt(history, sessions[k]).value <= high
    ensures Times(low, window as real) <= SumMap(ValuesIn(history, sessions, window, i)) <= Times(high, window as real)
  {
    hide SumMap, ValueAt, Times;
    var dates, m := sessions[i + 1 - window..i + 1], ValuesIn(history, sessions, window, i);
    WindowIndices(sessions, window, i);
    forall d | d in dates ensures d in m && low <= m[d] <= high {
      var k :| i - window < k <= i && sessions[k] == d;
    }
    AsMany(dates, m);
    SumBetween(m, low, high);
  }

  /** An average lies between the least and the greatest value of its window. */
  lemma MeanBetween(history: seq<Point>, sessions: seq<Date>, window: nat, i: int, p: Point, low: real, high: real)
    requires Ascending(sessions) && window >= 1 && IsMeanAt(history, sessions, window, i, p)
    requires forall k :: i - window < k <= i ==> low <= ValueAt(history, sessions[k]).value <= high
    ensures low <= p.value <= high
  {
    hide SumMap, ValueAt, Times, ValuesIn;
    WindowBetween(history, sessions, window, i, low, high);
    Between(low, p.value, high, window as real);
  }

  lemma Between(low: real, v: real, high: real, n: real)
    requires n > 0.0 && Times(low, n) <= v * n <= Times(high, n)
    ensures low <= v <= high
  {
  }

  /** A constant series averages to its constant. */
  lemma ConstantAverages(history: seq<Point>, sessions: seq<Date>, window: nat, c: real, p: Point)
    requires AscendingDates(history) && Ascending(sessions) && window >= 1
    requires (forall q :: q in history ==> q.value == c) && p in Average(history, sessions, window)
    ensures p.value == c
  {
    hide Average, SumMap;
    AverageMeans(history, sessions, window);
    assert IsMean(history, sessions, window, p);
    var i :| IsMeanAt(history, sessions, window, i, p);
    forall k | i - window < k <= i ensures c <= ValueAt(history, sessions[k]).value <= c {
      var v := ValueAt(history, sessions[k]);
      assert Point(sessions[k], v.value) in history;
    }
    MeanBetween(history, sessions, window, i, p, c, c);
  }

  /* ---- the moving average as a node ---- */

  /** Every asset's series carries exactly the means of its complete windows, in date order. */
  ghost predicate CarriesMeans(output: Series, series: Series, sessions: seq<Date>, window: nat)
    requires window >= 1
  {
    output.Keys == series.Keys
    && forall a :: a in output ==> AscendingDates(output[a]) && forall p :: p in output[a] <==> IsMean(series[a], sessions, window, p)
  }

  /** The trace names exactly the assets without a point one by one, and then those with one, each in order. */
  ghost predicate TellsAssets(emitted: seq<Emission>, output: Series) {
    var n := |emitted| - 1;
    && n >= 0 && emitted[n].eventType == COMPUTED && Ascending(emitted[n].payload)
    && (forall a :: a in emitted[n].payload <==> a in output && output[a] != [])
    && NamesEach(emitted[..n], EXCLUDED, set a | a in output && output[a] == [])
  }

  /** One emission of the type for each asset of the set, in order. */
  ghost predicate NamesEach(emitted: seq<Emission>, eventType: int, assets: set<Asset>) {
    && (forall i :: 0 <= i < |emitted| ==> emitted[i].eventType == eventType && |emitted[i].payload| == 1 && emitted[i].payload[0] in assets)
    && (forall i, j :: 0 <= i < j < |emitted| ==> |emitted[i].payload| == 1 && |emitted[j].payload| == 1 && emitted[i].payload[0] < emitted[j].payload[0])
    && (forall a :: a in assets ==> exists i :: 0 <= i < |emitted| && emitted[i].payload == [a])
  }

  lemma NamesNone(eventType: int)
    ensures NamesEach([], eventType, {})
  {
  }

  lemma NamesOneMore(emitted: seq<Emission>, eventType: int, assets: set<Asset>, last: Asset)
    requires NamesEach(emitted, eventType, assets) && forall a :: a in assets ==> a < last
    ensures NamesEach(emitted + [Emission(eventType, [last])], eventType, assets + {last})
  {
    var more := emitted + [Emission(eventType, [last])];
    forall a | a in assets + {last} ensures exists i :: 0 <= i < |more| && more[i].payload == [a] {
      if a == last {
        assert more[|emitted|].payload == [a];
      } else {
        var i :| 0 <= i < |emitted| && emitted[i].payload == [a];
        assert more[i].payload == [a];
      }
    }
  }

  lemma {:induction false} ExcludedNames(output: Series, assets: seq<Asset>)
    requires Ascending(assets) && forall a :: a in assets ==> a in output
    ensures NamesEach(Excluded(output, assets), EXCLUDED, set a | a in output && output[a] == [] && a in assets)
  {
    hide NamesEach;
    NamesNone(EXCLUDED);
    assert assets == [] ==> (set a | a in output && output[a] == [] && a in assets) == {};
    if assets != [] {
      var front, last := assets[..|assets| - 1], assets[|assets| - 1];
      ExcludedNames(output, front);
      assert forall a :: a in assets <==> a in front || a == last;
      var before, after := set a | a in output && output[a] == [] && a in front, set a | a in output && output[a] == [] && a in assets;
      if output[last] == [] {
        NamesOneMore(Excluded(output, front), EXCLUDED, before, last);
        assert after == before + {last};
      } else {
        assert after == before;
        assert Excluded(output, assets) == Excluded(output, front);
      }
    }
  }

  lemma {:induction false} ComputedNames(output: Series, assets: seq<Asset>)
    requires Ascending(assets) && forall a :: a in assets ==> a in output
    ensures Ascending(Computed(output, assets))
    ensures forall a :: a in Computed(output, assets) <==> a in assets && output[a] != []
  {
    if assets != [] {
      var front, last := assets[..|assets| - 1], assets[|assets| - 1];
      ComputedNames(output, front);
      assert forall a :: a in assets <==> a in front || a == last;
      var before := Computed(output, front);
      forall i | 0 <= i < |before| ensures before[i] < last {
        assert before[i] in before;
      }
    }
  }

  /** What the node delivers without a memo, or with one whose points are exact. */
  lemma AverageNodeMeans(inv: NodeInvocation)
    requires AverageReady(inv) && Ascending(inv.view.sessions) && (inv.cache.None? || CacheExact(inv))
    requires forall a :: a in inv.inputs[SERIES].series ==> AscendingDates(inv.inputs[SERIES].series[a])
    ensures var r := AverageNode(inv);
      && r.outcome.Outputs? && r.outcome.ports.Keys == {SERIES} && r.outcome.ports[SERIES].Runtime?
      && r.outcome.ports[SERIES].value.TimeSeriesValue?
      && CarriesMeans(r.outcome.ports[SERIES].value.series, inv.inputs[SERIES].series, inv.view.sessions, inv.params[WINDOW])
      && TellsAssets(r.emitted, r.outcome.ports[SERIES].value.series)
  {
    hide Average, CacheAfter, SlotAgrees, IsMean, Excluded, Computed, Replayed;
    var series, sessions, window := inv.inputs[SERIES].series, inv.view.sessions, inv.params[WINDOW];
    var output := AverageSeries(series, sessions, window, inv.cache);
    forall a | a in series ensures output[a] == Average(series[a], sessions, window) {
      if inv.cache.Some? {
        AssetAverageExactIff(series[a], sessions, window, inv.cache.value, a);
      }
      AverageMeans(series[a], sessions, window);
    }
    forall a | a in output ensures AscendingDates(output[a]) && forall p :: p in output[a] <==> IsMean(series[a], sessions, window, p) {
      AverageMeans(series[a], sessions, window);
    }
    TraceTells(output);
  }

  lemma TraceTells(output: Series)
    ensures TellsAssets(AverageTrace(output), output)
  {
    hide Excluded, Computed, NamesEach;
    var assets := Sorted(output.Keys);
    ExcludedNames(output, assets);
    ComputedNames(output, assets);
    var excluded := Excluded(output, assets);
    assert AverageTrace(output)[..|AverageTrace(output)| - 1] == excluded;
    assert (set a | a in output && output[a] == [] && a in assets) == (set a | a in output && output[a] == []);
  }

  /* ---- the price node ---- */

  /** The asset's series has the close of every observation available by the instant, and nothing else. */
  ghost predicate CarriesCloses(history: seq<Point>, d: DataSet, t: Instant, asset: Asset) {
    AscendingDates(history)
    && forall p :: p in history <==> asset in d.observations && ClosedAt(d.observations[asset], t, p)
  }

  ghost predicate ClosedAt(observations: seq<Observation>, t: Instant, p: Point) {
    exists k :: 0 <= k < |observations| && observations[k].closeAt <= t && p == Point(observations[k].date, observations[k].close)
  }

  lemma HistoryCarries(d: DataSet, t: Instant, asset: Asset)
    ensures CarriesCloses(AsOf(d, t).CloseHistory(asset), d, t, asset)
  {
    HistoryAscends(d, t, asset);
    if asset in d.observations {
      var series, history := d.observations[asset], AsOf(d, t).CloseHistory(asset);
      forall p ensures p in history <==> ClosedAt(series, t, p) {
        VisibleClosesMember(series, t, p);
        if ClosedAt(series, t, p) {
          var k :| 0 <= k < |series| && series[k].closeAt <= t && p == Point(series[k].date, series[k].close);
          assert CloseVisible(series[k], t);
        }
      }
    }
  }

  lemma {:induction false} MissingNames(view: DataView, assets: seq<Asset>)
    requires Ascending(assets)
    ensures NamesEach(Missing(view, assets), MISSING_ASSET, set a | a in assets && view.CloseHistory(a) == [])
  {
    hide NamesEach, DataView.CloseHistory;
    NamesNone(MISSING_ASSET);
    assert assets == [] ==> (set a | a in assets && view.CloseHistory(a) == []) == {};
    if assets != [] {
      var front, last := assets[..|assets| - 1], assets[|assets| - 1];
      MissingNames(view, front);
      assert forall a :: a in assets <==> a in front || a == last;
      var before, after := set a | a in front && view.CloseHistory(a) == [], set a | a in assets && view.CloseHistory(a) == [];
      if view.CloseHistory(last) == [] {
        NamesOneMore(Missing(view, front), MISSING_ASSET, before, last);
        assert after == before + {last};
      } else {
        assert after == before;
        assert Missing(view, assets) == Missing(view, front);
      }
    }
  }

  /** The entry of one asset: how many observations it has, and the dates of the first and the last. */
  ghost predicate ReportsAt(payload: seq<Json>, j: nat, asset: Asset, history: seq<Point>) {
    j + 2 <= |payload| && payload[j] == asset && payload[j + 1] == |history|
    && (history != [] ==> j + 4 <= |payload| && payload[j + 2] == history[0].date && payload[j + 3] == history[|history| - 1].date)
  }

  ghost predicate Reports(payload: seq<Json>, asset: Asset, history: seq<Point>) {
    exists j :: ReportsAt(payload, j, asset, history)
  }

  lemma ReportsMore(payload: seq<Json>, more: seq<Json>, asset: Asset, history: seq<Point>)
    requires Reports(payload, asset, history)
    ensures Reports(payload + more, asset, history)
  {
    var j :| ReportsAt(payload, j, asset, history);
    assert ReportsAt(payload + more, j, asset, history);
  }

  lemma {:induction false} ObservedReports(view: DataView, assets: seq<Asset>, asset: Asset)
    requires asset in assets
    ensures Reports(Observed(view, assets), asset, view.CloseHistory(asset))
  {
    var front, last := assets[..|assets| - 1], assets[|assets| - 1];
    var h := view.CloseHistory(last);
    var entry := [last, |h|] + if h == [] then [] else [h[0].date, h[|h| - 1].date];
    var before := Observed(view, front);
    assert Observed(view, assets) == before + entry;
    if asset == last {
      assert ReportsAt(before + entry, |before|, asset, h);
    } else {
      ObservedReports(view, front, asset);
      ReportsMore(before, entry, asset, view.CloseHistory(asset));
    }
  }

  /** What the price node delivers at an instant: every asset's available closes, and a trace that reports them. */
  lemma PriceNodeCloses(inv: NodeInvocation, d: DataSet, t: Instant)
    requires inv.view == AsOf(d, t) && ASSETS in inv.inputs && inv.inputs[ASSETS].AssetSetValue?
    ensures var r, assets := PriceNode(inv), inv.inputs[ASSETS].assets;
      && r.outcome.Outputs? && r.outcome.ports.Keys == {SERIES} && r.outcome.ports[SERIES].Runtime?
      && r.outcome.ports[SERIES].value.TimeSeriesValue?
      && var output := r.outcome.ports[SERIES].value.series;
      && output.Keys == assets && (forall a :: a in output ==> CarriesCloses(output[a], d, t, a))
      && |r.emitted| >= 1 && r.emitted[|r.emitted| - 1].eventType == OBSERVED
      && (forall a :: a in assets ==> Reports(r.emitted[|r.emitted| - 1].payload, a, output[a]))
      && NamesEach(r.emitted[..|r.emitted| - 1], MISSING_ASSET, set a | a in output && output[a] == [])
  {
    hide AsOf, Missing, Observed, NamesEach, Reports, CarriesCloses, DataView.CloseHistory;
    var assets, view := inv.inputs[ASSETS].assets, inv.view;
    var names := Sorted(assets);
    MissingNames(view, names);
    var r := PriceNode(inv);
    var output := r.outcome.ports[SERIES].value.series;
    forall a | a in assets ensures CarriesCloses(output[a], d, t, a) && Reports(Observed(view, names), a, output[a]) {
      HistoryCarries(d, t, a);
      ObservedReports(view, names, a);
    }
    assert r.emitted[..|r.emitted| - 1] == Missing(view, names);
    assert (set a | a in names && view.CloseHistory(a) == []) == (set a | a in output && output[a] == []);
  }
}
