/** What a valuation is worth, in terms of the dataset's observations: `_mark_to_market` of quantize/engine/backtest.py. */
module Marks {
  import opened Collections
  import opened Engine
  import opened FillProperties
  import opened Lookups
  import opened Market
  import opened Portfolio
  import opened RunInvariants
  import opened RunTheorems
  import opened Sessions

  /** The asset's mark: the close of its last dated observation available by the instant. */
  ghost predicate MarkedAt(d: DataSet, t: Instant, asset: Asset, date: Date, price: real) {
    Closed(d, t, asset, date, price) && forall later, v :: Closed(d, t, asset, later, v) ==> later <= date
  }

  /** A price for every held asset: its mark. */
  ghost predicate MarkPrices(d: DataSet, t: Instant, state: PortfolioState, prices: map<Asset, real>) {
    prices.Keys == state.positions.Keys && forall a :: a in prices ==> exists date :: MarkedAt(d, t, a, date, prices[a])
  }

  /** Cash and the holdings at their marks. */
  ghost predicate ValuedAt(d: DataSet, t: Instant, state: PortfolioState, value: real) {
    exists prices :: MarkPrices(d, t, state, prices) && value == state.cash + Worth(state.positions, prices)
  }

  /** In asset order, exactly the held assets whose mark is of another date, with that date. */
  ghost predicate StaleAt(d: DataSet, s: MarketSession, state: PortfolioState, stale: seq<StaleMark>) {
    && (forall i, j :: 0 <= i < j < |stale| ==> stale[i].asset < stale[j].asset)
    && (forall m :: m in stale <==>
          m.session == s.date && m.asset in state.positions && m.mark != s.date && exists price :: MarkedAt(d, s.closeAt, m.asset, m.mark, price))
  }

  /** The first held asset, in asset order, without any close available by the instant. */
  ghost predicate FirstUnmarked(d: DataSet, t: Instant, state: PortfolioState, asset: Asset) {
    && asset in state.positions && (forall date, v :: !Closed(d, t, asset, date, v))
    && forall a :: a in state.positions && a < asset ==> exists date, v :: Closed(d, t, a, date, v)
  }

  lemma MarkIs(d: DataSet, t: Instant, asset: Asset, p: Point)
    ensures AsOf(d, t).LatestClose(asset) == Some(p) <==> MarkedAt(d, t, asset, p.date, p.value)
    ensures AsOf(d, t).LatestClose(asset).None? <==> forall date, v :: !Closed(d, t, asset, date, v)
  {
    hide AsOf, Closed, DataView.LatestClose;
    LatestCloseIs(d, t, asset, p);
  }

  /* ---- the fold over the holdings ---- */

  /** A price for each of the assets: its latest visible close. */
  ghost predicate LatestFor(view: DataView, assets: seq<Asset>, prices: map<Asset, real>) {
    forall a :: a in assets ==> a in prices && view.LatestClose(a).Some? && prices[a] == view.LatestClose(a).value.value
  }

  lemma {:induction false} FoldSums(state: PortfolioState, view: DataView, date: Date, assets: seq<Asset>, prices: map<Asset, real>)
    requires state.positions.Keys <= prices.Keys && (forall a :: a in assets ==> a in state.positions) && LatestFor(view, assets, prices)
    ensures var r := MarkUpTo(state, view, date, assets);
      r.Marked? && r.value == state.cash + SumKeys(Notionals(state.positions, prices), assets)
  {
    hide DataView.LatestClose, Times;
    if assets != [] {
      var n := |assets| - 1;
      var last := assets[n];
      assert last in assets;
      FoldSums(state, view, date, assets[..n], prices);
    }
  }

  /** The stale ones among the assets, in their order. */
  ghost predicate StaleAmong(view: DataView, date: Date, assets: seq<Asset>, stale: seq<StaleMark>) {
    && (forall i, j :: 0 <= i < j < |stale| ==> stale[i].asset < stale[j].asset)
    && (forall m :: m in stale <==>
          m.session == date && m.asset in assets && view.LatestClose(m.asset).Some? && view.LatestClose(m.asset).value.date == m.mark && m.mark != date)
  }

  lemma {:induction false} FoldStale(state: PortfolioState, view: DataView, date: Date, assets: seq<Asset>)
    requires (forall a :: a in assets ==> a in state.positions) && Ascending(assets)
    ensures var r := MarkUpTo(state, view, date, assets);
      r.Marked? ==> StaleAmong(view, date, assets, r.stale)
  {
    hide DataView.LatestClose, Times, StaleAmong;
    if assets == [] {
      NothingStale(view, date);
    } else {
      var n := |assets| - 1;
      var front, last := assets[..n], assets[n];
      assert last in assets && assets == front + [last];
      FoldStale(state, view, date, front);
      var before := MarkUpTo(state, view, date, front);
      if before.Marked? && view.LatestClose(last).Some? {
        StaleSnoc(view, date, front, last, before.stale);
      }
    }
  }

  lemma NothingStale(view: DataView, date: Date)
    ensures StaleAmong(view, date, [], [])
  {
  }

  lemma StaleSnoc(view: DataView, date: Date, front: seq<Asset>, last: Asset, stale: seq<StaleMark>)
    requires StaleAmong(view, date, front, stale) && view.LatestClose(last).Some? && forall a :: a in front ==> a < last
    ensures var p := view.LatestClose(last).value;
      StaleAmong(view, date, front + [last], stale + if p.date != date then [StaleMark(date, last, p.date)] else [])
  {
    hide DataView.LatestClose;
    forall i | 0 <= i < |stale| ensures stale[i].asset < last {
      assert stale[i] in stale;
    }
  }

  lemma {:induction false} FoldStops(state: PortfolioState, view: DataView, date: Date, assets: seq<Asset>)
    requires (forall a :: a in assets ==> a in state.positions) && Ascending(assets)
    ensures var r := MarkUpTo(state, view, date, assets);
      r.Unpriced? ==> r.asset in assets && view.LatestClose(r.asset).None? && forall a :: a in assets && a < r.asset ==> view.LatestClose(a).Some?
  {
    hide DataView.LatestClose, Times;
    if assets != [] {
      var n := |assets| - 1;
      var front, last := assets[..n], assets[n];
      assert last in assets;
      FoldStops(state, view, date, front);
      assert forall a :: a in assets <==> a in front || a == last;
      if MarkUpTo(state, view, date, front).Marked? {
        MarkUpToIff(state, view, date, front);
      }
    }
  }

  /* ---- the mark ---- */

  /** Marking fails at the first held asset without a close; otherwise the portfolio is worth its cash and its holdings at their
      marks, and the stale marks are told. */
  lemma MarkSays(d: DataSet, s: MarketSession, state: PortfolioState)
    ensures var r := MarkToMarket(state, AsOf(d, s.closeAt), s.date);
      if r.Unpriced? then FirstUnmarked(d, s.closeAt, state, r.asset)
      else ValuedAt(d, s.closeAt, state, r.value) && StaleAt(d, s, state, r.stale)
  {
    hide AsOf, Closed, DataView.LatestClose, MarkUpTo, Worth, MarkedAt;
    var view, assets := AsOf(d, s.closeAt), Sorted(state.positions.Keys);
    var r := MarkToMarket(state, view, s.date);
    if r.Unpriced? {
      FoldStops(state, view, s.date, assets);
      UnmarkedIs(d, s.closeAt, state, r.asset);
    } else {
      MarkIff(state, view, s.date);
      ValueIs(d, s, state);
      FoldStale(state, view, s.date, assets);
      StaleIs(d, s, state, r.stale);
    }
  }

  lemma UnmarkedIs(d: DataSet, t: Instant, state: PortfolioState, asset: Asset)
    requires asset in state.positions && AsOf(d, t).LatestClose(asset).None?
    requires forall a :: a in state.positions && a < asset ==> AsOf(d, t).LatestClose(a).Some?
    ensures FirstUnmarked(d, t, state, asset)
  {
    hide AsOf, Closed, DataView.LatestClose, MarkedAt;
    MarkIs(d, t, asset, Point(0, 0.0));
    forall a | a in state.positions && a < asset ensures exists date, v :: Closed(d, t, a, date, v) {
      MarkIs(d, t, a, Point(0, 0.0));
    }
  }

  lemma ValueIs(d: DataSet, s: MarketSession, state: PortfolioState)
    requires AllMarkable(state, AsOf(d, s.closeAt))
    ensures var r := MarkToMarket(state, AsOf(d, s.closeAt), s.date);
      r.Marked? && ValuedAt(d, s.closeAt, state, r.value)
  {
    hide AsOf, Closed, DataView.LatestClose, MarkToMarket, MarkedAt, Worth;
    var view, assets := AsOf(d, s.closeAt), Sorted(state.positions.Keys);
    var prices := map a | a in state.positions :: view.LatestClose(a).value.value;
    WorthIs(state, view, s.date, prices);
    forall a | a in prices ensures exists date :: MarkedAt(d, s.closeAt, a, date, prices[a]) {
      var p := view.LatestClose(a).value;
      MarkIs(d, s.closeAt, a, p);
    }
    assert MarkPrices(d, s.closeAt, state, prices);
  }

  lemma WorthIs(state: PortfolioState, view: DataView, date: Date, prices: map<Asset, real>)
    requires state.positions.Keys == prices.Keys && LatestFor(view, Sorted(state.positions.Keys), prices)
    ensures var r := MarkToMarket(state, view, date);
      r.Marked? && r.value == state.cash + Worth(state.positions, prices)
  {
    hide DataView.LatestClose, MarkUpTo, SumMap, SumKeys, LatestFor;
    var assets := Sorted(state.positions.Keys);
    FoldSums(state, view, date, assets, prices);
    SumKeysIsSum(Notionals(state.positions, prices), assets);
  }

  lemma StaleIs(d: DataSet, s: MarketSession, state: PortfolioState, stale: seq<StaleMark>)
    requires StaleAmong(AsOf(d, s.closeAt), s.date, Sorted(state.positions.Keys), stale)
    ensures StaleAt(d, s, state, stale)
  {
    hide AsOf, Closed, DataView.LatestClose, MarkedAt;
    var view := AsOf(d, s.closeAt);
    forall m: StaleMark
      ensures (view.LatestClose(m.asset).Some? && view.LatestClose(m.asset).value.date == m.mark)
        <==> exists price :: MarkedAt(d, s.closeAt, m.asset, m.mark, price)
    {
      DatedIff(d, s.closeAt, m.asset, m.mark);
    }
  }

  lemma DatedIff(d: DataSet, t: Instant, asset: Asset, date: Date)
    ensures (AsOf(d, t).LatestClose(asset).Some? && AsOf(d, t).LatestClose(asset).value.date == date)
      <==> exists price :: MarkedAt(d, t, asset, date, price)
  {
    hide AsOf, Closed, DataView.LatestClose, MarkedAt;
    var latest := AsOf(d, t).LatestClose(asset);
    if latest.Some? {
      MarkIs(d, t, asset, latest.value);
    }
    if price :| MarkedAt(d, t, asset, date, price) {
      MarkIs(d, t, asset, Point(date, price));
    }
  }

  /** A portfolio has only one value at an instant. */
  lemma ValueIsUnique(d: DataSet, t: Instant, state: PortfolioState, v: real, w: real)
    requires ValuedAt(d, t, state, v) && ValuedAt(d, t, state, w)
    ensures v == w
  {
    hide AsOf, Closed, DataView.LatestClose, Worth, MarkedAt;
    var prices :| MarkPrices(d, t, state, prices) && v == state.cash + Worth(state.positions, prices);
    var others :| MarkPrices(d, t, state, others) && w == state.cash + Worth(state.positions, others);
    forall a | a in prices ensures prices[a] == others[a] {
      var date :| MarkedAt(d, t, a, date, prices[a]);
      var other :| MarkedAt(d, t, a, other, others[a]);
      MarkIs(d, t, a, Point(date, prices[a]));
      MarkIs(d, t, a, Point(other, others[a]));
    }
    assert prices == others;
  }
}
