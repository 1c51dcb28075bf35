/** What holds in every reachable engine state, and which failures can end a run when. */
module RunInvariants {
  import opened Collections
  import opened Diagnostics
  import opened Engine
  import opened Fills
  import opened FillLoops
  import opened FillProperties
  import opened Market
  import opened PlanProperties
  import opened Portfolio
  import Reconciliation
  import Resolution
  import Closure
  import opened Sessions
  import opened StrategyEvaluation

  /* ---- the window is contiguous ---- */

  lemma {:induction false} NextIsLeast(calendar: seq<MarketSession>, date: Date, s: MarketSession)
    requires OrderedSessions(calendar) && s in calendar && s.date > date
    ensures NextSessionAfter(calendar, date).Some? && NextSessionAfter(calendar, date).value.date <= s.date
  {
    var i :| 0 <= i < |calendar| && calendar[i] == s;
    if calendar[0].date <= date {
      assert calendar[1..][i - 1] == s;
      NextIsLeast(calendar[1..], date, s);
    }
  }

  /** The next calendar session inside the bound is the next session of the window. */
  lemma NextIsInWindow(cfg: Config, k: nat, next: MarketSession)
    requires k < |Window(cfg)| && NextSessionAfter(cfg.Calendar(), Window(cfg)[k].date) == Some(next)
    requires cfg.last.Some? ==> next.date <= cfg.last.value
    ensures k + 1 < |Window(cfg)| && Window(cfg)[k + 1] == next
  {
    hide RunWindow, NextSessionAfter;
    var w := Window(cfg);
    WindowIs(cfg);
    assert w[k] in w;
    assert InWindow(cfg.first, cfg.last, next);
    assert next in w;
    var j :| 0 <= j < |w| && w[j] == next;
    assert k < j;
    var after := w[k + 1];
    assert after in w;
    NextIsLeast(cfg.Calendar(), w[k].date, after);
    assert j == k + 1;
  }

  /* ---- which assets fills can leave in the portfolio ---- */

  lemma {:induction false} SoldAssets(l: Ledger, names: seq<Asset>, wanted: map<Asset, real>, prices: map<Asset, real>, factor: real)
    requires forall a :: a in names ==> a in wanted && a in prices && a in l.positions
    ensures SellAll(l, names, wanted, prices, factor).positions.Keys <= l.positions.Keys
  {
    hide Times;
    if names != [] {
      SoldAssets(l, names[..|names| - 1], wanted, prices, factor);
    }
  }

  lemma {:induction false} BoughtAssets(l: Ledger, names: seq<Asset>, wanted: map<Asset, real>, prices: map<Asset, real>, factor: real)
    requires BuyPrices(names, wanted, prices) && factor >= 0.0
    ensures forall a :: a in BuyAll(l, names, wanted, prices, factor).positions ==> a in l.positions || a in names
  {
    hide Times, Affordable, UnitCost;
    if names != [] {
      var n := |names| - 1;
      BoughtAssets(l, names[..n], wanted, prices, factor);
      var last := names[n];
      assert last in names;
      UnitCostIsPositive(prices[names[n]], factor);
    }
  }

  lemma UnitCostIsPositive(price: real, factor: real)
    requires price > 0.0 && factor >= 0.0
    ensures UnitCost(price, factor) > 0.0
  {
    UnitCostPositive(price, factor);
  }

  lemma SellHeld(state: PortfolioState, orders: seq<Order>)
    requires NoOversell(state.positions, orders)
    ensures forall a :: a in Sorted(SideMap(orders, Sell).Keys) ==> a in state.positions
  {
    var sells := SideMap(orders, Sell);
    forall a | a in Sorted(sells.Keys) ensures a in state.positions {
      var o: Order := Order(Sell, a, sells[a]);
      assert o in orders;
    }
  }

  /** After fills only previously held and bought assets are held. */
  lemma FilledAssets(state: PortfolioState, orders: seq<Order>, view: DataView, date: Date, bps: real)
    requires PositiveOpens(view) && NoOversell(state.positions, orders) && ApplyOrders(state, orders, view, date, bps).Applied?
    ensures forall a :: a in ApplyOrders(state, orders, view, date, bps).state.positions ==>
      a in state.positions || a in SideMap(orders, Buy)
  {
    hide SellAll, BuyAll, OrderFaults, OpensFor, SideMap, LedgerOk;
    FillsAreDefined(state, orders, view, date);
    var p, factor := OpensFor(view, date, orders), CostFactor(bps);
    var sells, buys := SideMap(orders, Sell), SideMap(orders, Buy);
    SidesPriced(orders, p);
    SellHeld(state, orders);
    var l := Ledger(state.cash, state.positions, []);
    SoldAssets(l, Sorted(sells.Keys), sells, p, factor);
    BoughtAssets(SellAll(l, Sorted(sells.Keys), sells, p, factor), Sorted(buys.Keys), buys, p, factor);
  }

  /* ---- the invariant ---- */

  /** Every held asset has a visible close. */
  ghost predicate AllMarkable(state: PortfolioState, view: DataView) {
    forall a :: a in state.positions ==> view.LatestClose(a).Some?
  }

  /** The plan that one evaluation record claims to be. */
  function PlanOf(cfg: Config, state: PortfolioState, s: MarketSession, weights: Weights): Reconciliation.Outcome {
    Reconciliation.Reconcile(state, weights, ClosesAt(AsOf(cfg.data, s.closeAt), s.date, Reconciliation.PlanningSet(state, weights)))
  }

  /** The queue holds exactly the orders of the last evaluation, made at session s for the current portfolio. */
  ghost predicate QueuedAt(cfg: Config, e: EngineState, s: MarketSession) {
    e.pending.Some? && e.evaluations != []
    && var record := e.evaluations[|e.evaluations| - 1];
    && record.session == s.date && record.at == s.closeAt && record.fillSession == e.pending.value.session
    && record.plan == PlanOf(cfg, e.state, s, record.weights)
    && record.plan.Planned? && record.plan.orders == e.pending.value.orders
  }

  /** After k sessions: the queue is empty or due at exactly the next session of the window, and everything held was
      markable at the last close. */
  ghost predicate Settled(cfg: Config, k: nat, e: EngineState)
    requires k <= |Window(cfg)|
  {
    && (e.pending.Some? ==>
          0 < k < |Window(cfg)| && e.pending.value.session == Window(cfg)[k].date && QueuedAt(cfg, e, Window(cfg)[k - 1]))
    && (k > 0 ==> AllMarkable(e.state, AsOf(cfg.data, Window(cfg)[k - 1].closeAt)))
  }

  /* ---- the open ---- */

  /** Orders of a plan buy only assets whose planning close was visible. */
  lemma BoughtWerePriced(cfg: Config, state: PortfolioState, s: MarketSession, weights: Weights, a: Asset)
    requires PlanOf(cfg, state, s, weights).Planned?
    requires a in SideMap(PlanOf(cfg, state, s, weights).orders, Buy)
    ensures AsOf(cfg.data, s.closeAt).LatestClose(a).Some?
  {
    hide Reconciliation.Reconcile, AsOf, Reconciliation.RowOf, Reconciliation.Tradeable, Reconciliation.PlanningSet;
    var view := AsOf(cfg.data, s.closeAt);
    var prices := ClosesAt(view, s.date, Reconciliation.PlanningSet(state, weights));
    var orders := PlanOf(cfg, state, s, weights).orders;
    var o: Order := Order(Buy, a, SideMap(orders, Buy)[a]);
    assert o in orders;
    PlanOrder(state, weights, prices, o);
    assert Get(prices, a).Some?;
  }

  lemma MarkableLater(cfg: Config, t: Instant, u: Instant, a: Asset)
    requires t <= u && AsOf(cfg.data, t).LatestClose(a).Some?
    ensures AsOf(cfg.data, u).LatestClose(a).Some?
  {
    hide VisibleCloses, VisibleOpens, ClosedBy;
    var history := AsOf(cfg.data, t).CloseHistory(a);
    var p := history[|history| - 1];
    assert p in history;
    VisibilityMonotone(cfg.data, t, u, a, p);
  }

  predicate OnlyMissingOpens(r: Report) {
    forall d :: d in r ==> d.code == MissingOpenPrice
  }

  /** A queued plan can be refused at the open only for want of an open price. */
  lemma {:induction false} OnlyOpensMissing(state: PortfolioState, orders: seq<Order>, view: DataView, date: Date, all: seq<Order>)
    requires OneOrderPerAsset(all) && NoOversell(state.positions, all) && orders <= all
    ensures OnlyMissingOpens(OrderFaults(state, view, date, orders))
  {
    hide DataView.OpenPrice;
    if orders != [] {
      var n := |orders| - 1;
      OnlyOpensMissing(state, orders[..n], view, date, all);
      var o := all[n];
      assert orders[n] == o && o in all;
      assert forall i :: 0 <= i < n ==> orders[..n][i] == all[i];
      assert !KeyIn(orders[n], orders[..n]);
    }
  }

  /** Every queued order has exactly one fill, on its own side and asset: sells in full, buys up to the order. */
  ghost predicate FillsAnswer(fills: seq<Fill>, orders: seq<Order>) {
    && (forall f :: f in fills ==> AnswersSome(f, orders))
    && (forall o: Order :: o in orders ==> AnsweredBySome(fills, o))
    && |fills| == |orders|
  }

  predicate Answers(f: Fill, o: RawOrder) {
    f.side == o.side && f.asset == o.asset && (if o.side == Sell then f.quantity == o.quantity else 0.0 <= f.quantity <= o.quantity)
  }

  lemma FreshAsset(orders: seq<Order>, n: nat, side: Side)
    requires OneOrderPerAsset(orders) && |orders| == n + 1
    ensures orders[n].asset !in SideMap(orders[..n], side)
  {
    var m := SideMap(orders[..n], side);
    forall a | a in m ensures a != orders[n].asset {
      var o: Order := Order(side, a, m[a]);
      assert o in orders[..n];
      var i :| 0 <= i < n && orders[i] == o;
    }
  }

  lemma SideMapSnoc(orders: seq<Order>, n: nat, side: Side)
    requires |orders| == n + 1
    ensures SideMap(orders, side) ==
            if orders[n].side == side then SideMap(orders[..n], side)[orders[n].asset := orders[n].quantity] else SideMap(orders[..n], side)
  {
  }

  lemma GrowsByOne(m: map<Asset, real>, k: Asset, v: real)
    requires k !in m
    ensures |m[k := v]| == |m| + 1
  {
    assert m[k := v].Keys == m.Keys + {k};
  }

  /** With one order per asset the two side maps list every order once. */
  lemma {:induction false} SidesCount(orders: seq<Order>)
    requires OneOrderPerAsset(orders)
    ensures |SideMap(orders, Sell)| + |SideMap(orders, Buy)| == |orders|
  {
    hide SideMap;
    if orders == [] {
      NoSides();
    } else {
      var n := |orders| - 1;
      SidesCount(orders[..n]);
      SideMapSnoc(orders, n, Sell);
      SideMapSnoc(orders, n, Buy);
      FreshAsset(orders, n, orders[n].side);
      GrowsByOne(SideMap(orders[..n], orders[n].side), orders[n].asset, orders[n].quantity);
    }
  }

  lemma NoSides()
    ensures SideMap([], Sell) == map[] && SideMap([], Buy) == map[]
  {
  }

  lemma {:induction false} SideQuantity(orders: seq<Order>, o: Order)
    requires OneOrderPerAsset(orders) && o in orders
    ensures o.asset in SideMap(orders, o.side) && SideMap(orders, o.side)[o.asset] == o.quantity
  {
    var n := |orders| - 1;
    if o != orders[n] {
      var i :| 0 <= i < |orders| && orders[i] == o;
      assert orders[..n][i] == o;
      assert orders[i].asset != orders[n].asset;
      SideQuantity(orders[..n], o);
    }
  }

  lemma SellAnswers(f: Fill, asset: Asset, wanted: real, held: real, price: real, factor: real)
    requires SellFill(f, asset, wanted, held, price, factor) && wanted <= held
    ensures Answers(f, Order(Sell, asset, wanted))
  {
  }

  lemma BuyAnswers(f: Fill, asset: Asset, wanted: real, price: real, factor: real)
    requires BuyFill(f, asset, wanted, price, factor)
    ensures Answers(f, Order(Buy, asset, wanted))
  {
  }

  ghost predicate AnswersSome(f: Fill, orders: seq<Order>) {
    exists o: Order :: o in orders && Answers(f, o)
  }

  ghost predicate AnsweredBySome(fills: seq<Fill>, o: Order) {
    exists f :: f in fills && Answers(f, o)
  }

  /** One side's fills, in the order of its names. */
  ghost predicate ListAnswers(fills: seq<Fill>, names: seq<Asset>, wanted: map<Asset, real>, side: Side) {
    |fills| == |names| && forall i :: 0 <= i < |names| ==> names[i] in wanted && Answers(fills[i], Order(side, names[i], wanted[names[i]]))
  }

  lemma SellsAnswer(fills: seq<Fill>, names: seq<Asset>, wanted: map<Asset, real>, positions: map<Asset, real>, prices: map<Asset, real>, factor: real)
    requires BuyPrices(names, wanted, prices) && SellFills(fills, names, wanted, positions, prices, factor)
    requires forall a :: a in names ==> wanted[a] <= QuantityOf(positions, a)
    ensures ListAnswers(fills, names, wanted, Sell)
  {
    hide SellFill, Answers;
    forall i | 0 <= i < |names| ensures names[i] in wanted && Answers(fills[i], Order(Sell, names[i], wanted[names[i]])) {
      var a := names[i];
      assert a in names;
      SellAnswers(fills[i], a, wanted[a], QuantityOf(positions, a), prices[a], factor);
    }
  }

  lemma BuysAnswer(fills: seq<Fill>, names: seq<Asset>, wanted: map<Asset, real>, prices: map<Asset, real>, factor: real)
    requires BuyPrices(names, wanted, prices) && BuyFills(fills, names, wanted, prices, factor)
    ensures ListAnswers(fills, names, wanted, Buy)
  {
    hide BuyFill, Answers;
    forall i | 0 <= i < |names| ensures names[i] in wanted && Answers(fills[i], Order(Buy, names[i], wanted[names[i]])) {
      var a := names[i];
      assert a in names;
      BuyAnswers(fills[i], a, wanted[a], prices[a], factor);
    }
  }

  lemma ListForward(fills: seq<Fill>, names: seq<Asset>, wanted: map<Asset, real>, side: Side, orders: seq<Order>)
    requires ListAnswers(fills, names, wanted, side) && wanted == SideMap(orders, side)
    ensures forall f :: f in fills ==> AnswersSome(f, orders)
  {
    hide SideMap, Answers;
    forall f | f in fills ensures AnswersSome(f, orders) {
      var i :| 0 <= i < |fills| && fills[i] == f;
      var o: Order := Order(side, names[i], wanted[names[i]]);
      assert o in orders && Answers(f, o);
    }
  }

  lemma ListBackward(fills: seq<Fill>, names: seq<Asset>, wanted: map<Asset, real>, side: Side, orders: seq<Order>)
    requires ListAnswers(fills, names, wanted, side) && wanted == SideMap(orders, side) && OneOrderPerAsset(orders)
    requires forall a :: a in wanted ==> a in names
    ensures forall o: Order :: o in orders && o.side == side ==> AnsweredBySome(fills, o)
  {
    hide SideMap, Answers, OneOrderPerAsset;
    forall o: Order | o in orders && o.side == side ensures AnsweredBySome(fills, o) {
      SideQuantity(orders, o);
      var i :| 0 <= i < |names| && names[i] == o.asset;
      assert fills[i] in fills && Answers(fills[i], o);
    }
  }

  lemma SellsWithinHeld(state: PortfolioState, orders: seq<Order>)
    requires NoOversell(state.positions, orders)
    ensures forall a :: a in SideMap(orders, Sell) ==> SideMap(orders, Sell)[a] <= QuantityOf(state.positions, a)
  {
    var sells := SideMap(orders, Sell);
    forall a | a in sells ensures sells[a] <= QuantityOf(state.positions, a) {
      var o: Order := Order(Sell, a, sells[a]);
      assert o in orders;
    }
  }

  lemma SidesAnswer(state: PortfolioState, orders: seq<Order>, view: DataView, date: Date, bps: real)
    requires PositiveOpens(view) && NoOversell(state.positions, orders) && ApplyOrders(state, orders, view, date, bps).Applied?
    ensures var fills := ApplyOrders(state, orders, view, date, bps).fills;
      var s, b := Sorted(SideMap(orders, Sell).Keys), Sorted(SideMap(orders, Buy).Keys);
      && |fills| == |s| + |b|
      && ListAnswers(fills[..|s|], s, SideMap(orders, Sell), Sell) && ListAnswers(fills[|s|..], b, SideMap(orders, Buy), Buy)
  {
    hide ApplyOrders, SideMap, OpensFor, SellFills, BuyFills, ShortfallLast, NoOversell, ListAnswers, PositiveOpens;
    FillsMatchOrders(state, orders, view, date, bps);
    SellsWithinHeld(state, orders);
    var sells, buys, opens, factor := SideMap(orders, Sell), SideMap(orders, Buy), OpensFor(view, date, orders), CostFactor(bps);
    var s, b := Sorted(sells.Keys), Sorted(buys.Keys);
    var fills := ApplyOrders(state, orders, view, date, bps).fills;
    SellsAnswer(fills[..|s|], s, sells, state.positions, opens, factor);
    BuysAnswer(fills[|s|..], b, buys, opens, factor);
  }

  lemma SidesLength(orders: seq<Order>)
    requires OneOrderPerAsset(orders)
    ensures |Sorted(SideMap(orders, Sell).Keys)| + |Sorted(SideMap(orders, Buy).Keys)| == |orders|
  {
    hide OneOrderPerAsset, SideMap;
    SidesCount(orders);
    assert |SideMap(orders, Sell)| == |SideMap(orders, Sell).Keys| && |SideMap(orders, Buy)| == |SideMap(orders, Buy).Keys|;
  }

  lemma SideAnswers(fills: seq<Fill>, side: Side, orders: seq<Order>)
    requires OneOrderPerAsset(orders) && ListAnswers(fills, Sorted(SideMap(orders, side).Keys), SideMap(orders, side), side)
    ensures forall f :: f in fills ==> AnswersSome(f, orders)
    ensures forall o: Order :: o in orders && o.side == side ==> AnsweredBySome(fills, o)
  {
    hide SideMap, AnswersSome, AnsweredBySome, OneOrderPerAsset, ListAnswers;
    var wanted := SideMap(orders, side);
    ListForward(fills, Sorted(wanted.Keys), wanted, side, orders);
    ListBackward(fills, Sorted(wanted.Keys), wanted, side, orders);
  }

  /** Every queued order has exactly one fill, on its own side and asset: sells in full, buys up to the order. */
  lemma FillsAnswerOrders(state: PortfolioState, orders: seq<Order>, view: DataView, date: Date, bps: real)
    requires PositiveOpens(view) && OneOrderPerAsset(orders) && NoOversell(state.positions, orders)
    requires ApplyOrders(state, orders, view, date, bps).Applied?
    ensures FillsAnswer(ApplyOrders(state, orders, view, date, bps).fills, orders)
  {
    hide ApplyOrders, SideMap, AnswersSome, AnsweredBySome, OneOrderPerAsset, NoOversell, ListAnswers, PositiveOpens, Sorted;
    SidesAnswer(state, orders, view, date, bps);
    SidesLength(orders);
    var fills, n := ApplyOrders(state, orders, view, date, bps).fills, |Sorted(SideMap(orders, Sell).Keys)|;
    SideAnswers(fills[..n], Sell, orders);
    SideAnswers(fills[n..], Buy, orders);
    Joined(fills[..n], fills[n..], orders);
    assert fills == fills[..n] + fills[n..];
  }

  lemma Joined(sold: seq<Fill>, bought: seq<Fill>, orders: seq<Order>)
    requires forall f :: f in sold ==> AnswersSome(f, orders)
    requires forall f :: f in bought ==> AnswersSome(f, orders)
    requires forall o: Order :: o in orders && o.side == Sell ==> AnsweredBySome(sold, o)
    requires forall o: Order :: o in orders && o.side == Buy ==> AnsweredBySome(bought, o)
    ensures forall f :: f in sold + bought ==> AnswersSome(f, orders)
    ensures forall o: Order :: o in orders ==> AnsweredBySome(sold + bought, o)
  {
    hide AnswersSome, Answers;
    forall o: Order | o in orders ensures AnsweredBySome(sold + bought, o) {
      if o.side == Sell {
        var f :| f in sold && Answers(f, o);
        assert f in sold + bought;
      } else {
        var f :| f in bought && Answers(f, o);
        assert f in sold + bought;
      }
    }
  }

  /* ---- what the open and the mark leave alone ---- */

  ghost predicate KeepsEvaluations(e: EngineState, after: EngineState) {
    after.memo == e.memo && after.evaluations == e.evaluations
  }

  lemma OpenKeeps(cfg: Config, e: EngineState, s: MarketSession)
    ensures KeepsEvaluations(e, AtOpen(cfg, e, s).engine)
  {
    hide AsOf, ApplyOrders, PositiveOpens;
  }

  lemma MarkKeeps(cfg: Config, e: EngineState, s: MarketSession)
    ensures KeepsEvaluations(e, AtMark(cfg, e, s).engine)
  {
    hide AsOf, MarkToMarket;
  }
}
