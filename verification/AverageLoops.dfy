/** The run-scoped memo of quantize/runtime/binding.py. */
module Memos {
  import opened Collections
  import opened Documents
  import opened Market
  import opened SeriesNodes

  class EvaluationMemo {
    var slots: Memo
    var highWater: Option<Instant>

    constructor ()
      ensures slots == map[] && highWater == None
    {
      slots, highWater := map[], None;
    }

    /** Refuses a strictly earlier instant; otherwise remembers it. */
    method AssertMonotonic(instant: Instant) returns (accepted: bool)
      modifies this`highWater
      ensures accepted <==> (old(highWater).Some? ==> old(highWater).value <= instant)
      ensures highWater == if accepted then Some(instant) else old(highWater)
    {
      if highWater.Some? && instant < highWater.value {
        return false;
      }
      highWater := Some(instant);
      return true;
    }

    /** The dict owned by the key, created empty on first use. */
    method Slot(path: Path, asset: Asset) returns (slot: map<Date, real>)
      modifies this`slots
      ensures slot == SlotOf(CacheIn(old(slots), path), asset)
      ensures slots == old(slots)[path := CacheIn(old(slots), path)[asset := slot]]
    {
      var cache := CacheIn(slots, path);
      slot := if asset in cache then cache[asset] else map[];
      slots := slots[path := cache[asset := slot]];
    }

    /** slot[day] = value, in place. */
    method Put(path: Path, asset: Asset, day: Date, value: real)
      modifies this`slots
      ensures slots == old(slots)[path := CacheIn(old(slots), path)[asset := SlotOf(CacheIn(old(slots), path), asset)[day := value]]]
    {
      var cache := CacheIn(slots, path);
      slots := slots[path := cache[asset := SlotOf(cache, asset)[day := value]]];
    }

    /** What a node has left in its own part. */
    method Leave(path: Path, cache: Cache)
      modifies this`slots
      ensures slots == old(slots)[path := cache]
    {
      slots := slots[path := cache];
    }
  }
}

/** The loops of `_moving_average_evaluate`, writing the memo in place, compute the node's result. */
module AverageLoops {
  import opened Collections
  import opened Documents
  import opened Market
  import opened Memos
  import opened MovingAverage
  import opened SeriesNodes

  lemma ReplayedStep(history: map<Date, real>, sessions: seq<Date>, window: nat, slot: map<Date, real>, n: nat)
    requires window >= 1 && n < |sessions| && n + 1 >= window
    ensures var (points, cache) := Replayed(history, sessions, window, slot, n);
      var day, mean := sessions[n], MeanAt(history, sessions, window, n);
      Replayed(history, sessions, window, slot, n + 1)
      == if day in cache then (points + [Point(day, cache[day])], cache)
         else if mean.Some? then (points + [Point(day, mean.value)], cache[day := mean.value])
         else (points, cache)
  {
  }

  lemma ReplayedNothing(history: map<Date, real>, sessions: seq<Date>, window: nat, slot: map<Date, real>, n: nat)
    requires window >= 1 && n <= |sessions| && n < window
    ensures Replayed(history, sessions, window, slot, n) == ([], slot) && Averages(history, sessions, window, n) == []
  {
  }

  /** The slot has been replayed; every other slot and every other node's part is as before. */
  ghost predicate ReplayedInto(before: Memo, after: Memo, path: Path, asset: Asset, slot: map<Date, real>) {
    && path in after && after[path] == CacheIn(before, path)[asset := slot]
    && forall p :: p != path ==> CacheIn(after, p) == CacheIn(before, p)
  }

  lemma IntoItself(memo: Memo, after: Memo, path: Path, asset: Asset)
    requires after == memo[path := CacheIn(memo, path)[asset := SlotOf(CacheIn(memo, path), asset)]]
    ensures ReplayedInto(memo, after, path, asset, SlotOf(CacheIn(memo, path), asset))
  {
  }

  /** Looking the slot up again changes nothing. */
  lemma IntoAgain(before: Memo, mid: Memo, after: Memo, path: Path, asset: Asset, slot: map<Date, real>)
    requires ReplayedInto(before, mid, path, asset, slot)
    requires after == mid[path := CacheIn(mid, path)[asset := SlotOf(CacheIn(mid, path), asset)]]
    ensures SlotOf(CacheIn(mid, path), asset) == slot && after == mid
  {
    assert CacheIn(mid, path)[asset := slot] == CacheIn(mid, path);
    assert mid[path := CacheIn(mid, path)] == mid;
  }

  lemma IntoPut(before: Memo, mid: Memo, after: Memo, path: Path, asset: Asset, slot: map<Date, real>, day: Date, v: real)
    requires ReplayedInto(before, mid, path, asset, slot)
    requires after == mid[path := CacheIn(mid, path)[asset := SlotOf(CacheIn(mid, path), asset)[day := v]]]
    ensures ReplayedInto(before, after, path, asset, slot[day := v])
  {
    assert CacheIn(before, path)[asset := slot][asset := slot[day := v]] == CacheIn(before, path)[asset := slot[day := v]];
  }

  /** One asset with a memo: a cached point is replayed, any other one computed and stored. */
  method AverageWithMemo(path: Path, asset: Asset, history: map<Date, real>, sessions: seq<Date>, window: nat, memo: EvaluationMemo)
    returns (points: seq<Point>)
    requires window >= 1
    modifies memo`slots
    ensures var (p, slot) := Replayed(history, sessions, window, SlotOf(CacheIn(old(memo.slots), path), asset), |sessions|);
      points == p && ReplayedInto(old(memo.slots), memo.slots, path, asset, slot)
  {
    hide Replayed, MeanAt, ReplayedInto, SlotOf, CacheIn;
    ghost var start := memo.slots;
    var slot := memo.Slot(path, asset);
    ghost var slot0 := slot;
    points := [];
    IntoItself(start, memo.slots, path, asset);
    ReplayedNothing(history, sessions, window, slot0, if window - 1 <= |sessions| then window - 1 else |sessions|);
    if window - 1 <= |sessions| {
      for index := window - 1 to |sessions|
        invariant points == Replayed(history, sessions, window, slot0, index).0
        invariant ReplayedInto(start, memo.slots, path, asset, Replayed(history, sessions, window, slot0, index).1)
      {
        ReplayedStep(history, sessions, window, slot0, index);
        var day := sessions[index];
        ghost var mid, done := memo.slots, Replayed(history, sessions, window, slot0, index).1;
        var cached := memo.Slot(path, asset);
        IntoAgain(start, mid, memo.slots, path, asset, done);
        if day in cached {
          points := points + [Point(day, cached[day])];
        } else {
          var mean := MeanAt(history, sessions, window, index);
          if mean.Some? {
            points := points + [Point(day, mean.value)];
            memo.Put(path, asset, day, mean.value);
            IntoPut(start, mid, memo.slots, path, asset, done, day, mean.value);
          }
        }
      }
    }
  }

  /** One asset without a memo. */
  method AverageWithoutMemo(history: map<Date, real>, sessions: seq<Date>, window: nat) returns (points: seq<Point>)
    requires window >= 1
    ensures points == Averages(history, sessions, window, |sessions|)
  {
    points := [];
    if window - 1 <= |sessions| {
      for index := window - 1 to |sessions|
        invariant points == Averages(history, sessions, window, index)
      {
        var closes := MeanAt(history, sessions, window, index);
        if closes.Some? {
          points := points + [Point(sessions[index], closes.value)];
        }
      }
    }
  }

  method AverageAsset(path: Path, asset: Asset, history: seq<Point>, sessions: seq<Date>, window: nat, memo: EvaluationMemo?) returns (points: seq<Point>)
    requires window >= 1
    modifies if memo == null then {} else {memo}
    ensures points == AssetAverage(history, sessions, window, old(CacheOf(memo, path)), asset)
    ensures memo != null ==> memo.highWater == old(memo.highWater)
    ensures memo != null ==> ReplayedInto(old(memo.slots), memo.slots, path, asset,
                                          Replayed(Dict(history), sessions, window, SlotOf(CacheIn(old(memo.slots), path), asset), |sessions|).1)
  {
    hide Replayed, Averages, SlotOf, ReplayedInto;
    if memo == null {
      points := AverageWithoutMemo(Dict(history), sessions, window);
    } else {
      points := AverageWithMemo(path, asset, Dict(history), sessions, window, memo);
    }
  }

  /** What a node at path sees of the memo. */
  ghost function CacheOf(memo: EvaluationMemo?, path: Path): Option<Cache>
    reads memo
  {
    if memo == null then None else Some(CacheIn(memo.slots, path))
  }

  /** The assets of part are done: their averages, and their slots. */
  ghost predicate DoneUpTo(series: Series, sessions: seq<Date>, window: nat, before: Option<Cache>, output: Series, after: Option<Cache>, part: set<Asset>)
    requires window >= 1
  {
    && part <= series.Keys && output.Keys == part
    && (forall a :: a in part ==> output[a] == AssetAverage(series[a], sessions, window, before, a))
    && before.Some? == after.Some?
    && (before.Some? ==> after.value == CacheAfter(Restrict(series, part), sessions, window, before.value))
  }

  lemma NothingDone(series: Series, sessions: seq<Date>, window: nat, before: Option<Cache>)
    requires window >= 1
    ensures DoneUpTo(series, sessions, window, before, map[], before, {})
  {
    hide Replayed;
    if before.Some? {
      assert before.value == CacheAfter(Restrict(series, {}), sessions, window, before.value);
    }
  }

  lemma OneMoreDone(series: Series, sessions: seq<Date>, window: nat, before: Option<Cache>, output: Series, mid: Option<Cache>,
                    after: Option<Cache>, part: set<Asset>, asset: Asset, points: seq<Point>)
    requires window >= 1 && DoneUpTo(series, sessions, window, before, output, mid, part)
    requires asset in series && asset !in part && mid.Some? == after.Some?
    requires points == AssetAverage(series[asset], sessions, window, mid, asset)
    requires mid.Some? ==> after.value == mid.value[asset := Replayed(Dict(series[asset]), sessions, window, SlotOf(mid.value, asset), |sessions|).1]
    ensures DoneUpTo(series, sessions, window, before, output[asset := points], after, part + {asset})
  {
    hide Replayed, Averages, Dict;
    if before.Some? {
      assert SlotOf(mid.value, asset) == SlotOf(before.value, asset);
      var done := CacheAfter(Restrict(series, part + {asset}), sessions, window, before.value);
      assert after.value.Keys == done.Keys;
      assert after.value == done;
    }
  }

  lemma AllDone(series: Series, sessions: seq<Date>, window: nat, before: Option<Cache>, output: Series, after: Option<Cache>)
    requires window >= 1 && DoneUpTo(series, sessions, window, before, output, after, series.Keys)
    ensures output == AverageSeries(series, sessions, window, before)
    ensures before.Some? ==> after == Some(CacheAfter(series, sessions, window, before.value))
  {
    hide Replayed, AssetAverage, CacheAfter;
    assert Restrict(series, series.Keys) == series;
  }

  lemma TraceSnoc(output: Series, assets: seq<Asset>, i: nat)
    requires i < |assets| && forall a :: a in assets ==> a in output
    ensures assets[i] in output
    ensures Excluded(output, assets[..i + 1]) == Excluded(output, assets[..i]) + if output[assets[i]] == [] then [Emission(EXCLUDED, [assets[i]])] else []
    ensures Computed(output, assets[..i + 1]) == Computed(output, assets[..i]) + if output[assets[i]] == [] then [] else [assets[i]]
  {
    assert assets[..i + 1][..i] == assets[..i];
    var asset := assets[i];
    assert asset in assets;
  }

  /** The trace of the finished output. */
  method TraceAverages(output: Series) returns (emitted: seq<Emission>)
    ensures emitted == AverageTrace(output)
  {
    var assets := Sorted(output.Keys);
    var computed: seq<Asset> := [];
    emitted := [];
    for i := 0 to |assets|
      invariant emitted == Excluded(output, assets[..i]) && computed == Computed(output, assets[..i])
    {
      TraceSnoc(output, assets, i);
      var asset := assets[i];
      if output[asset] == [] {
        emitted := emitted + [Emission(EXCLUDED, [asset])];
      } else {
        computed := computed + [asset];
      }
    }
    assert assets[..|assets|] == assets;
    emitted := emitted + [Emission(COMPUTED, computed)];
  }

  /** `_moving_average_evaluate`: the result of the node, and its slots of the memo updated in place. */
  method EvaluateAverage(inv: NodeInvocation, memo: EvaluationMemo?) returns (r: NodeResult)
    requires inv.cache == CacheOf(memo, inv.path)
    modifies if memo == null then {} else {memo}
    ensures r == AverageNode(inv)
    ensures memo != null ==> memo.highWater == old(memo.highWater) && CacheIn(memo.slots, inv.path) == r.cache
    ensures memo != null ==> forall p :: p != inv.path ==> CacheIn(memo.slots, p) == CacheIn(old(memo.slots), p)
  {
    hide Replayed, Averages, Dict, ToSet, Sorted, AssetAverage, CacheAfter, DoneUpTo, AverageTrace;
    if !(WINDOW in inv.params && inv.params[WINDOW] >= 1 && SERIES in inv.inputs && inv.inputs[SERIES].TimeSeriesValue?) {
      return NodeResult([], Raised, inv.Cached());
    }
    var series, sessions, window := inv.inputs[SERIES].series, inv.view.sessions, inv.params[WINDOW];
    var output: Series := map[];
    var assets := Sorted(series.Keys);
    SortedSet(series.Keys);
    ghost var part: set<Asset> := {};
    NothingDone(series, sessions, window, inv.cache);
    for i := 0 to |assets|
      invariant part == ToSet(assets[..i])
      invariant memo != null ==> memo.highWater == old(memo.highWater)
      invariant memo != null ==> forall p :: p != inv.path ==> CacheIn(memo.slots, p) == CacheIn(old(memo.slots), p)
      invariant DoneUpTo(series, sessions, window, inv.cache, output, CacheOf(memo, inv.path), part)
    {
      var asset := assets[i];
      assert asset in series.Keys;
      PrefixSet(assets, i);
      FreshNext(assets, i);
      ghost var mid := CacheOf(memo, inv.path);
      var points := AverageAsset(inv.path, asset, series[asset], sessions, window, memo);
      OneMoreDone(series, sessions, window, inv.cache, output, mid, CacheOf(memo, inv.path), part, asset, points);
      output := output[asset := points];
      part := part + {asset};
    }
    AllDone(series, sessions, window, inv.cache, output, CacheOf(memo, inv.path));
    var emitted := TraceAverages(output);
    r := NodeResult(emitted, Outputs(map[SERIES := Runtime(TimeSeriesValue(output))]), if memo == null then map[] else CacheIn(memo.slots, inv.path));
  }
}
