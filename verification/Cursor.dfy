/** The incremental visibility cursor: quantize/market/data.py, `MarketDataCursor`. */
module Cursor {
  import opened Collections
  import opened Market

  /** One observation keyed by when it becomes knowable. */
  datatype Arrival = Arrival(at: Instant, asset: Asset, date: Date, price: real)

  /** Tuple order. */
  predicate Before(a: Arrival, b: Arrival) {
    || a.at < b.at
    || (a.at == b.at && (a.asset < b.asset
      || (a.asset == b.asset && (a.date < b.date || (a.date == b.date && a.price <= b.price)))))
  }

  ghost predicate SortedArrivals(s: seq<Arrival>) {
    forall i, j :: 0 <= i <= j < |s| ==> Before(s[i], s[j])
  }

  function Insert(a: Arrival, s: seq<Arrival>): (r: seq<Arrival>)
    requires SortedArrivals(s)
    ensures SortedArrivals(r)
    ensures forall x :: x in r <==> x == a || x in s
  {
    if s == [] then [a]
    else if Before(a, s[0]) then [a] + s
    else
      var rest := Insert(a, s[1..]);
      assert forall x :: x in s <==> x == s[0] || x in s[1..];
      assert forall x :: x in rest ==> Before(s[0], x) by {
        assert forall x :: x in s ==> Before(s[0], x);
      }
      [s[0]] + rest
  }

  /** list.sort(): the arrivals in tuple order. */
  function SortArrivals(s: seq<Arrival>): (r: seq<Arrival>)
    ensures SortedArrivals(r)
    ensures forall x :: x in r <==> x in s
  {
    if s == [] then [] else
      assert forall x :: x in s <==> x == s[0] || x in s[1..];
      Insert(s[0], SortArrivals(s[1..]))
  }

  function CloseArrival(asset: Asset, o: Observation): Arrival {
    Arrival(o.closeAt, asset, o.date, o.close)
  }

  function OpenArrival(asset: Asset, o: Observation): Arrival {
    Arrival(o.openAt, asset, o.date, o.open)
  }

  ghost predicate IsCloseArrival(d: MarketData, a: Arrival) {
    a.asset in d.observations && exists o :: o in d.observations[a.asset] && a == CloseArrival(a.asset, o)
  }

  ghost predicate IsOpenArrival(d: MarketData, a: Arrival) {
    a.asset in d.observations && exists o :: o in d.observations[a.asset] && a == OpenArrival(a.asset, o)
  }

  ghost predicate Arrived(arrivals: seq<Arrival>, asset: Asset, p: Point) {
    exists a :: a in arrivals && a.asset == asset && Point(a.date, a.price) == p
  }

  /** r is the point with the greatest session date among the arrivals of asset, in whatever order they came. */
  ghost predicate LatestAmong(arrivals: seq<Arrival>, asset: Asset, r: Option<Point>) {
    match r
    case None => forall p :: !Arrived(arrivals, asset, p)
    case Some(p) => Arrived(arrivals, asset, p) && forall q :: Arrived(arrivals, asset, q) ==> q.date <= p.date
  }

  function Lookup(opens: map<Asset, map<Date, real>>, asset: Asset, date: Date): Option<real> {
    if asset in opens then Get(opens[asset], date) else None
  }

  /** r is the price of the arrival dated to date, if that arrival is in. */
  ghost predicate OpenAmong(arrivals: seq<Arrival>, asset: Asset, date: Date, r: Option<real>) {
    match r
    case None => forall v :: !Arrived(arrivals, asset, Point(date, v))
    case Some(v) => Arrived(arrivals, asset, Point(date, v))
  }

  /** What has arrived by t is exactly what the as-of view at t shows. */
  lemma ArrivedIsVisible(d: DataSet, t: Instant, incorporated: seq<Arrival>, asset: Asset, p: Point)
    requires forall a :: a in incorporated <==> IsCloseArrival(d, a) && a.at <= t
    ensures Arrived(incorporated, asset, p) <==> p in AsOf(d, t).CloseHistory(asset)
  {
    if asset in d.observations {
      var series := d.observations[asset];
      VisibleClosesMember(series, t, p);
      if Arrived(incorporated, asset, p) {
        var a :| a in incorporated && a.asset == asset && Point(a.date, a.price) == p;
        var o :| o in series && a == CloseArrival(asset, o);
        var i :| 0 <= i < |series| && series[i] == o;
        assert CloseVisible(series[i], t);
      }
      if i :| 0 <= i < |series| && CloseVisible(series[i], t) && p == Point(series[i].date, series[i].close) {
        var o := series[i];
        assert o in series;
        assert IsCloseArrival(d, CloseArrival(asset, o));
      }
    } else {
      assert forall a :: a in incorporated ==> IsCloseArrival(d, a);
    }
  }

  lemma OpenArrivedIsVisible(d: DataSet, t: Instant, incorporated: seq<Arrival>, asset: Asset, p: Point)
    requires forall a :: a in incorporated <==> IsOpenArrival(d, a) && a.at <= t
    ensures Arrived(incorporated, asset, p) <==> asset in AsOf(d, t).opens && p in AsOf(d, t).opens[asset]
  {
    if asset in d.observations {
      var series := d.observations[asset];
      VisibleOpensMember(series, t, p);
      if Arrived(incorporated, asset, p) {
        var a :| a in incorporated && a.asset == asset && Point(a.date, a.price) == p;
        var o :| o in series && a == OpenArrival(asset, o);
        var i :| 0 <= i < |series| && series[i] == o;
        assert series[i].openAt <= t;
      }
      if i :| 0 <= i < |series| && series[i].openAt <= t && p == Point(series[i].date, series[i].open) {
        var o := series[i];
        assert o in series;
        assert IsOpenArrival(d, OpenArrival(asset, o));
      }
    } else {
      assert forall a :: a in incorporated ==> IsOpenArrival(d, a);
    }
  }

  /** The latest visible close is the last point of the as-of history. */
  lemma LatestIsAsOf(d: DataSet, t: Instant, incorporated: seq<Arrival>, asset: Asset, r: Option<Point>)
    requires forall a :: a in incorporated <==> IsCloseArrival(d, a) && a.at <= t
    requires LatestAmong(incorporated, asset, r)
    ensures r == AsOf(d, t).LatestClose(asset)
  {
    var history := AsOf(d, t).CloseHistory(asset);
    forall p ensures Arrived(incorporated, asset, p) <==> p in history {
      ArrivedIsVisible(d, t, incorporated, asset, p);
    }
    if asset in d.observations {
      assert SeriesOk(d.calendar, d.observations[asset]);
      VisibleClosesAscend(d.observations[asset], t);
    }
    LastOfAscending(history, r);
  }

  lemma LastOfAscending(history: seq<Point>, r: Option<Point>)
    requires AscendingDates(history)
    requires match r
      case None => forall p :: p !in history
      case Some(p) => p in history && forall q :: q in history ==> q.date <= p.date
    ensures r == if history == [] then None else Some(history[|history| - 1])
  {
    if history != [] {
      var last := history[|history| - 1];
      assert last in history;
    }
  }

  lemma OpenIsAsOf(d: DataSet, t: Instant, incorporated: seq<Arrival>, asset: Asset, date: Date, r: Option<real>)
    requires forall a :: a in incorporated <==> IsOpenArrival(d, a) && a.at <= t
    requires OpenAmong(incorporated, asset, date, r)
    ensures r == AsOf(d, t).OpenPrice(asset, date)
  {
    var view := AsOf(d, t);
    forall p ensures Arrived(incorporated, asset, p) <==> asset in view.opens && p in view.opens[asset] {
      OpenArrivedIsVisible(d, t, incorporated, asset, p);
    }
    if asset in d.observations {
      assert SeriesOk(d.calendar, d.observations[asset]);
      VisibleOpensAscend(d.observations[asset], t);
      ValueAtAscending(view.opens[asset], date, r);
    }
  }

  lemma ValueAtAscending(history: seq<Point>, date: Date, r: Option<real>)
    requires AscendingDates(history)
    requires match r
      case None => forall v :: Point(date, v) !in history
      case Some(v) => Point(date, v) in history
    ensures r == ValueAt(history, date)
  {
    var seen := ValueAt(history, date);
    if r.Some? {
      var j :| 0 <= j < |history| && history[j] == Point(date, r.value);
    }
    if seen.Some? {
      var i :| 0 <= i < |history| && history[i] == Point(date, seen.value);
      assert Point(date, seen.value) in history;
    }
  }

  lemma NewerClose(arrivals: seq<Arrival>, a: Arrival, asset: Asset, before: Option<Point>, after: Option<Point>)
    requires LatestAmong(arrivals, asset, before)
    requires after == if asset == a.asset && (before.None? || a.date > before.value.date)
                      then Some(Point(a.date, a.price)) else before
    ensures LatestAmong(arrivals + [a], asset, after)
  {
    forall p ensures Arrived(arrivals + [a], asset, p)
                 <==> Arrived(arrivals, asset, p) || (asset == a.asset && p == Point(a.date, a.price)) {
      ArrivedSnoc(arrivals, a, asset, p);
    }
  }

  lemma NewerOpen(arrivals: seq<Arrival>, a: Arrival, asset: Asset, date: Date, before: Option<real>, after: Option<real>)
    requires OpenAmong(arrivals, asset, date, before)
    requires after == if asset == a.asset && date == a.date then Some(a.price) else before
    ensures OpenAmong(arrivals + [a], asset, date, after)
  {
    forall p ensures Arrived(arrivals + [a], asset, p)
                 <==> Arrived(arrivals, asset, p) || (asset == a.asset && p == Point(a.date, a.price)) {
      ArrivedSnoc(arrivals, a, asset, p);
    }
  }

  lemma ArrivedSnoc(arrivals: seq<Arrival>, a: Arrival, asset: Asset, p: Point)
    ensures Arrived(arrivals + [a], asset, p)
       <==> Arrived(arrivals, asset, p) || (asset == a.asset && p == Point(a.date, a.price))
  {
    assert a in arrivals + [a];
    if Arrived(arrivals, asset, p) {
      var b :| b in arrivals && b.asset == asset && Point(b.date, b.price) == p;
      assert b in arrivals + [a];
    }
  }

  class MarketDataCursor {
    const dataset: DataSet
    var closeArrivals: seq<Arrival>
    var openArrivals: seq<Arrival>
    var closeCursor: nat
    var openCursor: nat
    var latestClose: map<Asset, Point>
    var visibleOpens: map<Asset, map<Date, real>>
    var highWater: Option<Instant>

    /** Arrivals are all of the dataset's, in time order, and cut exactly at the high-water instant. */
    ghost predicate Cut(arrivals: seq<Arrival>, at: nat)
      reads this
    {
      && SortedArrivals(arrivals)
      && at <= |arrivals|
      && (highWater.None? ==> at == 0)
      && (highWater.Some? ==>
            && (forall i :: 0 <= i < at ==> arrivals[i].at <= highWater.value)
            && (forall i :: at <= i < |arrivals| ==> arrivals[i].at > highWater.value))
    }

    ghost predicate Valid()
      reads this
    {
      && (forall a :: a in closeArrivals <==> IsCloseArrival(dataset, a))
      && (forall a :: a in openArrivals <==> IsOpenArrival(dataset, a))
      && Cut(closeArrivals, closeCursor) && Cut(openArrivals, openCursor)
      && (forall asset :: LatestAmong(closeArrivals[..closeCursor], asset, Get(latestClose, asset)))
      && (forall asset, date :: OpenAmong(openArrivals[..openCursor], asset, date, Lookup(visibleOpens, asset, date)))
    }

    constructor (d: DataSet)
      ensures Valid() && dataset == d && highWater == None
    {
      dataset := d;
      var closes, opens := AllArrivals(d);
      closeArrivals := SortArrivals(closes);
      openArrivals := SortArrivals(opens);
      closeCursor, openCursor := 0, 0;
      latestClose, visibleOpens := map[], map[];
      highWater := None;
    }

    static method AllArrivals(d: DataSet) returns (closes: seq<Arrival>, opens: seq<Arrival>)
      ensures forall a :: a in closes <==> IsCloseArrival(d, a)
      ensures forall a :: a in opens <==> IsOpenArrival(d, a)
    {
      closes, opens := [], [];
      var assets := Sorted(d.observations.Keys);
      for i := 0 to |assets|
        invariant forall a :: a in closes <==> a.asset in assets[..i] && IsCloseArrival(d, a)
        invariant forall a :: a in opens <==> a.asset in assets[..i] && IsOpenArrival(d, a)
      {
        var asset := assets[i];
        assert asset in d.observations.Keys;
        var newCloses, newOpens := ArrivalsOf(asset, d.observations[asset]);
        forall a ensures a in newCloses <==> a.asset == asset && IsCloseArrival(d, a) { }
        forall a ensures a in newOpens <==> a.asset == asset && IsOpenArrival(d, a) { }
        assert forall x :: x in assets[..i + 1] <==> x in assets[..i] || x == asset;
        closes, opens := closes + newCloses, opens + newOpens;
      }
      assert forall x :: x in assets[..|assets|] <==> x in d.observations;
    }

    /** Incorporate every observation available at the cutoff (inclusive). */
    method Advance(cutoff: Instant)
      requires Valid()
      requires highWater.Some? ==> highWater.value <= cutoff
      modifies this
      ensures Valid() && highWater == Some(cutoff)
    {
      highWater := Some(cutoff);
      IncorporateCloses(cutoff);
      IncorporateOpens(cutoff);
    }

    /** The first loop of `_advance`: out-of-order arrivals never displace a later session. */
    method IncorporateCloses(cutoff: Instant)
      requires closeCursor <= |closeArrivals| && SortedArrivals(closeArrivals)
      requires forall i :: 0 <= i < closeCursor ==> closeArrivals[i].at <= cutoff
      requires forall asset :: LatestAmong(closeArrivals[..closeCursor], asset, Get(latestClose, asset))
      modifies this`closeCursor, this`latestClose
      ensures closeCursor <= |closeArrivals|
      ensures forall i :: 0 <= i < closeCursor ==> closeArrivals[i].at <= cutoff
      ensures forall i :: closeCursor <= i < |closeArrivals| ==> closeArrivals[i].at > cutoff
      ensures forall asset :: LatestAmong(closeArrivals[..closeCursor], asset, Get(latestClose, asset))
    {
      var index := closeCursor;
      while index < |closeArrivals| && closeArrivals[index].at <= cutoff
        invariant index <= |closeArrivals|
        invariant forall i :: 0 <= i < index ==> closeArrivals[i].at <= cutoff
        invariant forall asset :: LatestAmong(closeArrivals[..index], asset, Get(latestClose, asset))
      {
        var a := closeArrivals[index];
        ghost var before := latestClose;
        assert closeArrivals[..index + 1] == closeArrivals[..index] + [a];
        if a.asset !in latestClose || a.date > latestClose[a.asset].date {
          latestClose := latestClose[a.asset := Point(a.date, a.price)];
        }
        forall asset ensures LatestAmong(closeArrivals[..index + 1], asset, Get(latestClose, asset)) {
          assert LatestAmong(closeArrivals[..index], asset, Get(before, asset));
          NewerClose(closeArrivals[..index], a, asset, Get(before, asset), Get(latestClose, asset));
        }
        index := index + 1;
      }
      closeCursor := index;
      assert forall i :: index <= i < |closeArrivals| ==> Before(closeArrivals[index], closeArrivals[i]);
    }

    method IncorporateOpens(cutoff: Instant)
      requires openCursor <= |openArrivals| && SortedArrivals(openArrivals)
      requires forall a :: a in openArrivals <==> IsOpenArrival(dataset, a)
      requires forall i :: 0 <= i < openCursor ==> openArrivals[i].at <= cutoff
      requires forall asset, date :: OpenAmong(openArrivals[..openCursor], asset, date, Lookup(visibleOpens, asset, date))
      modifies this`openCursor, this`visibleOpens
      ensures openCursor <= |openArrivals|
      ensures forall i :: 0 <= i < openCursor ==> openArrivals[i].at <= cutoff
      ensures forall i :: openCursor <= i < |openArrivals| ==> openArrivals[i].at > cutoff
      ensures forall asset, date :: OpenAmong(openArrivals[..openCursor], asset, date, Lookup(visibleOpens, asset, date))
    {
      var index := openCursor;
      while index < |openArrivals| && openArrivals[index].at <= cutoff
        invariant index <= |openArrivals|
        invariant forall i :: 0 <= i < index ==> openArrivals[i].at <= cutoff
        invariant forall asset, date :: OpenAmong(openArrivals[..index], asset, date, Lookup(visibleOpens, asset, date))
      {
        var a := openArrivals[index];
        ghost var before := visibleOpens;
        assert openArrivals[..index + 1] == openArrivals[..index] + [a];
        var days := if a.asset in visibleOpens then visibleOpens[a.asset] else map[];
        visibleOpens := visibleOpens[a.asset := days[a.date := a.price]];
        forall asset, date ensures OpenAmong(openArrivals[..index + 1], asset, date, Lookup(visibleOpens, asset, date)) {
          assert OpenAmong(openArrivals[..index], asset, date, Lookup(before, asset, date));
          NewerOpen(openArrivals[..index], a, asset, date, Lookup(before, asset, date), Lookup(visibleOpens, asset, date));
        }
        index := index + 1;
      }
      openCursor := index;
      assert forall i :: index <= i < |openArrivals| ==> Before(openArrivals[index], openArrivals[i]);
    }

    /** The last point of `as_of(instant).close_history(asset)`, for any instant, forward or backward. */
    method LatestClose(asset: Asset, instant: Instant) returns (r: Option<Point>)
      requires Valid()
      modifies this
      ensures Valid()
      ensures r == AsOf(dataset, instant).LatestClose(asset)
    {
      if highWater.Some? && instant < highWater.value {
        return AsOf(dataset, instant).LatestClose(asset);
      }
      Advance(instant);
      IncorporatedCloses();
      LatestIsAsOf(dataset, instant, closeArrivals[..closeCursor], asset, Get(latestClose, asset));
      return Get(latestClose, asset);
    }

    method SessionClose(asset: Asset, date: Date, instant: Instant) returns (r: Option<real>)
      requires Valid()
      modifies this
      ensures Valid()
      ensures r == AsOf(dataset, instant).SessionClose(asset, date)
    {
      var latest := LatestClose(asset, instant);
      return if latest.Some? && latest.value.date == date then Some(latest.value.value) else None;
    }

    method OpenPrice(asset: Asset, date: Date, instant: Instant) returns (r: Option<real>)
      requires Valid()
      modifies this
      ensures Valid()
      ensures r == AsOf(dataset, instant).OpenPrice(asset, date)
    {
      if highWater.Some? && instant < highWater.value {
        return AsOf(dataset, instant).OpenPrice(asset, date);
      }
      Advance(instant);
      IncorporatedOpens();
      OpenIsAsOf(dataset, instant, openArrivals[..openCursor], asset, date, Lookup(visibleOpens, asset, date));
      return Lookup(visibleOpens, asset, date);
    }

    lemma IncorporatedCloses()
      requires Valid() && highWater.Some?
      ensures forall a :: a in closeArrivals[..closeCursor] <==> IsCloseArrival(dataset, a) && a.at <= highWater.value
    {
      forall a | IsCloseArrival(dataset, a) && a.at <= highWater.value ensures a in closeArrivals[..closeCursor] {
        var i :| 0 <= i < |closeArrivals| && closeArrivals[i] == a;
        assert i < closeCursor;
      }
    }

    lemma IncorporatedOpens()
      requires Valid() && highWater.Some?
      ensures forall a :: a in openArrivals[..openCursor] <==> IsOpenArrival(dataset, a) && a.at <= highWater.value
    {
      forall a | IsOpenArrival(dataset, a) && a.at <= highWater.value ensures a in openArrivals[..openCursor] {
        var i :| 0 <= i < |openArrivals| && openArrivals[i] == a;
        assert i < openCursor;
      }
    }

    static method ArrivalsOf(asset: Asset, series: seq<Observation>) returns (closes: seq<Arrival>, opens: seq<Arrival>)
      ensures forall a :: a in closes <==> exists o :: o in series && a == CloseArrival(asset, o)
      ensures forall a :: a in opens <==> exists o :: o in series && a == OpenArrival(asset, o)
    {
      closes, opens := [], [];
      for i := 0 to |series|
        invariant forall a :: a in closes <==> exists o :: o in series[..i] && a == CloseArrival(asset, o)
        invariant forall a :: a in opens <==> exists o :: o in series[..i] && a == OpenArrival(asset, o)
      {
        assert series[..i + 1] == series[..i] + [series[i]];
        closes, opens := closes + [CloseArrival(asset, series[i])], opens + [OpenArrival(asset, series[i])];
      }
      assert series[..|series|] == series;
    }
  }
}
