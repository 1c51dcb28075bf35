/** What the view answers, in terms of the dataset's observations: quantize/market/data.py. */
module Lookups {
  import opened Collections
  import opened Engine
  import opened Market
  import opened Means
  import opened SeriesNodes

  /** An observation of the asset that is dated so and whose close is available by the instant. */
  ghost predicate Closed(d: DataSet, t: Instant, asset: Asset, date: Date, v: real) {
    asset in d.observations
    && exists o :: o in d.observations[asset] && o.date == date && o.closeAt <= t && o.close == v
  }

  ghost predicate Opened(d: DataSet, t: Instant, asset: Asset, date: Date, v: real) {
    asset in d.observations
    && exists o :: o in d.observations[asset] && o.date == date && o.openAt <= t && o.open == v
  }

  lemma ClosesShown(d: DataSet, t: Instant, asset: Asset, p: Point)
    ensures p in AsOf(d, t).CloseHistory(asset) <==> Closed(d, t, asset, p.date, p.value)
    ensures AscendingDates(AsOf(d, t).CloseHistory(asset))
  {
    HistoryCarries(d, t, asset);
    if asset in d.observations {
      var series := d.observations[asset];
      if Closed(d, t, asset, p.date, p.value) {
        var o :| o in series && o.date == p.date && o.closeAt <= t && o.close == p.value;
        var k :| 0 <= k < |series| && series[k] == o;
        assert ClosedAt(series, t, p);
      }
    }
  }

  /** The latest close is the one of the last dated observation available by the instant. */
  lemma LatestCloseIs(d: DataSet, t: Instant, asset: Asset, p: Point)
    ensures AsOf(d, t).LatestClose(asset) == Some(p)
      <==> Closed(d, t, asset, p.date, p.value) && forall date, v :: Closed(d, t, asset, date, v) ==> date <= p.date
    ensures AsOf(d, t).LatestClose(asset).None? <==> forall date, v :: !Closed(d, t, asset, date, v)
  {
    hide AsOf, Closed, DataView.CloseHistory;
    var h := AsOf(d, t).CloseHistory(asset);
    forall q ensures q in h <==> Closed(d, t, asset, q.date, q.value) {
      ClosesShown(d, t, asset, q);
    }
    ClosesShown(d, t, asset, p);
    if h != [] {
      var last := h[|h| - 1];
      assert last in h;
      forall date, v | Closed(d, t, asset, date, v) ensures date <= last.date {
        var q := Point(date, v);
        assert q in h;
        var i :| 0 <= i < |h| && h[i] == q;
      }
      if Closed(d, t, asset, p.date, p.value) && p.date >= last.date {
        assert p in h;
        var i :| 0 <= i < |h| && h[i] == p;
      }
    } else {
      forall date, v ensures !Closed(d, t, asset, date, v) {
        var q := Point(date, v);
        assert q !in h;
      }
    }
  }

  /** A session's close is the close of its own observation, never an earlier one's. */
  lemma SessionCloseIs(d: DataSet, t: Instant, asset: Asset, date: Date, v: real)
    ensures AsOf(d, t).SessionClose(asset, date) == Some(v)
      <==> Closed(d, t, asset, date, v) && forall later, w :: Closed(d, t, asset, later, w) ==> later <= date
  {
    hide AsOf, Closed, DataView.LatestClose;
    LatestCloseIs(d, t, asset, Point(date, v));
    var latest := AsOf(d, t).LatestClose(asset);
    if latest.Some? {
      LatestCloseIs(d, t, asset, latest.value);
    }
  }

  /** An open is the open of the observation dated so, never another one's. */
  lemma OpenPriceIs(d: DataSet, t: Instant, asset: Asset, date: Date, v: real)
    ensures AsOf(d, t).OpenPrice(asset, date) == Some(v) <==> Opened(d, t, asset, date, v)
  {
    if asset in d.observations {
      var series := d.observations[asset];
      assert SeriesOk(d.calendar, series);
      VisibleOpensAscend(series, t);
      var h := VisibleOpens(series, t);
      VisibleOpensMember(series, t, Point(date, v));
      var r := ValueAt(h, date);
      if r.Some? {
        var i :| 0 <= i < |h| && h[i] == Point(date, r.value);
        VisibleOpensMember(series, t, h[i]);
        if Opened(d, t, asset, date, v) {
          assert Point(date, v) in h;
          var j :| 0 <= j < |h| && h[j] == Point(date, v);
        }
      }
    }
  }

  /** The visible sessions are those that have closed, in order. */
  lemma {:induction false} SessionsAre(calendar: seq<MarketSession>, t: Instant, day: Date)
    ensures day in ClosedBy(calendar, t) <==> exists s :: s in calendar && s.date == day && s.closeAt <= t
  {
    if calendar != [] {
      var front, last := calendar[..|calendar| - 1], calendar[|calendar| - 1];
      SessionsAre(front, t, day);
      assert forall s :: s in calendar <==> s in front || s == last;
    }
  }

  /* ---- at the close of a session ---- */

  lemma NothingLater(d: DataSet, asset: Asset, k: nat, date: Date, v: real)
    requires k < |d.calendar| && Closed(d, d.calendar[k].closeAt, asset, date, v)
    ensures date <= d.calendar[k].date
  {
    var series := d.observations[asset];
    assert SeriesOk(d.calendar, series);
    var o :| o in series && o.date == date && o.closeAt <= d.calendar[k].closeAt && o.close == v;
    var i :| 0 <= i < |series| && series[i] == o;
    assert ObservationOk(d.calendar, series[i]);
    var j :| 0 <= j < |d.calendar| && d.calendar[j].date == o.date && d.calendar[j].closeAt <= o.closeAt;
    assert d.calendar[j].openAt < d.calendar[j].closeAt;
  }

  /** The prices a plan is made at: for exactly the assets in question with an observation of that very session that is
      available by its close, the observation's close. */
  lemma PlanningPrices(d: DataSet, k: nat, assets: set<Asset>, asset: Asset, v: real)
    requires k < |d.calendar|
    ensures var s := d.calendar[k];
      Get(ClosesAt(AsOf(d, s.closeAt), s.date, assets), asset) == Some(v) <==> asset in assets && Closed(d, s.closeAt, asset, s.date, v)
  {
    hide AsOf, Closed, DataView.SessionClose;
    var s := d.calendar[k];
    SessionCloseIs(d, s.closeAt, asset, s.date, v);
    forall later, w | Closed(d, s.closeAt, asset, later, w) ensures later <= s.date {
      NothingLater(d, asset, k, later, w);
    }
  }
}
