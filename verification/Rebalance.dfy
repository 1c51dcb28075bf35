/** Planning and filling compose: a rebalance at the planning prices without costs reaches its targets
    exactly and has nothing left to do. quantize/engine/reconcile.py with quantize/engine/fills.py. */
module Rebalance {
  import opened Collections
  import opened Diagnostics
  import opened FillProperties
  import opened Fills
  import opened Market
  import opened PlanProperties
  import opened Portfolio
  import opened Reconciliation

  /* ---- filling in full at zero cost ---- */

  lemma ZeroCost(x: real)
    ensures Times(x, 0.0) == 0.0 && UnitCost(x, 0.0) == x
  {
  }

  /** Free sells turn each holding into what is left of it and credit the full proceeds. */
  lemma {:induction false} FreeSells(l: Ledger, names: seq<Asset>, wanted: map<Asset, real>, prices: map<Asset, real>,
                                     proceeds: map<Asset, real>)
    requires Distinct(names) && BuyPrices(names, wanted, prices) && LedgerOk(l)
    requires forall a :: a in names ==> 0.0 < wanted[a] <= QuantityOf(l.positions, a)
    requires forall a :: a in names ==> a in proceeds && proceeds[a] == Times(wanted[a], prices[a])
    ensures var l' := SellAll(l, names, wanted, prices, 0.0);
      l'.cash == l.cash + SumKeys(proceeds, names)
      && forall a :: QuantityOf(l'.positions, a) == QuantityOf(l.positions, a) - (if a in names then wanted[a] else 0.0)
  {
    hide Times, SumKeys, BuyPrices;
    if names == [] {
      EmptySumKeys(proceeds);
    } else {
      var n := |names| - 1;
      var a := names[n];
      assert a in names && a !in names[..n];
      assert forall x :: x in names <==> x in names[..n] || x == a;
      FrontPriced(names, wanted, prices);
      FreeSells(l, names[..n], wanted, prices, proceeds);
      LastSumKeys(proceeds, names);
      ZeroCost(Times(wanted[a], prices[a]));
    }
  }

  lemma FrontPriced(names: seq<Asset>, wanted: map<Asset, real>, prices: map<Asset, real>)
    requires names != [] && BuyPrices(names, wanted, prices)
    ensures BuyPrices(names[..|names| - 1], wanted, prices)
    ensures var a := names[|names| - 1]; a in wanted && a in prices && prices[a] > 0.0
  {
    var a := names[|names| - 1];
    assert a in names;
  }

  lemma EmptySumKeys(m: map<int, real>)
    ensures SumKeys(m, []) == 0.0
  {
  }

  lemma LastSumKeys(m: map<int, real>, keys: seq<int>)
    requires keys != [] && forall k :: k in keys ==> k in m
    ensures SumKeys(m, keys) == SumKeys(m, keys[..|keys| - 1]) + m[keys[|keys| - 1]]
  {
  }

  ghost predicate NoneScaled(fills: seq<Fill>) {
    forall i :: 0 <= i < |fills| ==> !fills[i].scaled
  }

  /** Buys that fit the cash in total are all filled in full. */
  lemma {:induction false} FreeBuys(l: Ledger, names: seq<Asset>, wanted: map<Asset, real>, prices: map<Asset, real>,
                                    costs: map<Asset, real>)
    requires Distinct(names) && BuyPrices(names, wanted, prices) && LedgerOk(l) && NoneScaled(l.fills)
    requires forall a :: a in names ==> 0.0 < wanted[a]
    requires forall a :: a in names ==> a in costs && costs[a] == Times(wanted[a], prices[a])
    requires SumKeys(costs, names) <= l.cash
    ensures var l' := BuyAll(l, names, wanted, prices, 0.0);
      l'.cash == l.cash - SumKeys(costs, names) && NoneScaled(l'.fills)
      && forall a :: QuantityOf(l'.positions, a) == QuantityOf(l.positions, a) + (if a in names then wanted[a] else 0.0)
  {
    hide Times, SumKeys, UnitCost, BuyPrices, BuyOne, NoneScaled, LedgerOk;
    if names == [] {
      EmptySumKeys(costs);
    } else {
      var n := |names| - 1;
      var a := names[n];
      assert a in names && a !in names[..n];
      assert forall x :: x in names <==> x in names[..n] || x == a;
      FrontPriced(names, wanted, prices);
      LastSumKeys(costs, names);
      TimesNonNegative(wanted[a], prices[a]);
      FreeBuys(l, names[..n], wanted, prices, costs);
      ZeroCost(prices[a]);
      var before := BuyAll(l, names[..n], wanted, prices, 0.0);
      BuyInFull(before, a, wanted[a], prices[a]);
    }
  }

  lemma BuyInFull(l: Ledger, a: Asset, wanted: real, price: real)
    requires NoneScaled(l.fills) && wanted > 0.0 && price > 0.0 && Times(wanted, price) <= l.cash
    ensures UnitCost(price, 0.0) == price
    ensures var l' := BuyOne(l, a, wanted, price, 0.0);
      l'.cash == l.cash - Times(wanted, price) && NoneScaled(l'.fills)
      && forall x :: QuantityOf(l'.positions, x) == QuantityOf(l.positions, x) + (if x == a then wanted else 0.0)
  {
    hide Times;
    ZeroCost(price);
  }

  lemma {:induction false} FreeFillsCostNothing(fills: seq<Fill>)
    requires forall i :: 0 <= i < |fills| ==> fills[i].cost == 0.0
    ensures Costs(fills) == 0.0
  {
    if fills != [] {
      FreeFillsCostNothing(fills[..|fills| - 1]);
    }
  }

  /* ---- the plan as quantities per asset ---- */

  /** What the plan does with one asset. */
  function PlannedRow(state: PortfolioState, targets: Weights, prices: map<Asset, real>, asset: Asset): AssetPlan
    requires Reconcile(state, targets, prices).Planned? && asset in prices && prices[asset] > 0.0
  {
    RowOf(state, targets, prices, Reconcile(state, targets, prices).portfolioValue, asset)
  }

  lemma SideOf(state: PortfolioState, targets: Weights, prices: map<Asset, real>, a: Asset)
    requires Reconcile(state, targets, prices).Planned? && a in PlanningSet(state, targets)
    ensures a in prices && prices[a] > 0.0
    ensures var plan, row := Reconcile(state, targets, prices), PlannedRow(state, targets, prices, a);
      var sells, buys := SideMap(plan.orders, Sell), SideMap(plan.orders, Buy);
      && Tradeable(row)
      && (a in sells <==> row.action == SellIt) && (a in sells ==> sells[a] == SoldQuantity(row))
      && (a in buys <==> row.action == BuyIt) && (a in buys ==> buys[a] == row.delta)
  {
    hide Reconcile, RowOf, PlanningSet;
    RowHasOrder(state, targets, prices, a);
    var plan := Reconcile(state, targets, prices);
    var sells, buys := SideMap(plan.orders, Sell), SideMap(plan.orders, Buy);
    if a in sells {
      PlanOrder(state, targets, prices, Order(Sell, a, sells[a]));
    }
    if a in buys {
      PlanOrder(state, targets, prices, Order(Buy, a, buys[a]));
    }
  }

  lemma SidesPlanned(state: PortfolioState, targets: Weights, prices: map<Asset, real>)
    requires Reconcile(state, targets, prices).Planned?
    ensures SideMap(Reconcile(state, targets, prices).orders, Sell).Keys <= PlanningSet(state, targets)
    ensures SideMap(Reconcile(state, targets, prices).orders, Buy).Keys <= PlanningSet(state, targets)
  {
    hide Reconcile, RowOf, PlanningSet;
    var plan := Reconcile(state, targets, prices);
    var sells, buys := SideMap(plan.orders, Sell), SideMap(plan.orders, Buy);
    forall a | a in sells ensures a in PlanningSet(state, targets) {
      PlanOrder(state, targets, prices, Order(Sell, a, sells[a]));
    }
    forall a | a in buys ensures a in PlanningSet(state, targets) {
      PlanOrder(state, targets, prices, Order(Buy, a, buys[a]));
    }
  }

  /** Proceeds or costs of one side at planning prices. */
  function SideNotional(side: map<Asset, real>, prices: map<Asset, real>): (r: map<Asset, real>)
    requires side.Keys <= prices.Keys
    ensures r.Keys == side.Keys && forall a :: a in r ==> r[a] == Times(side[a], prices[a])
  {
    map a | a in side :: Times(side[a], prices[a])
  }

  lemma {:induction false} FlowIsFold(state: PortfolioState, targets: Weights, prices: map<Asset, real>, pv: real, assets: seq<Asset>,
                                      flows: map<Asset, real>)
    requires PricedAll(prices, assets)
    requires forall a :: a in assets ==> a in flows && flows[a] == Flow(RowOf(state, targets, prices, pv, a))
    ensures TotalFlow(Rows(state, targets, prices, pv, assets)) == SumKeys(flows, assets)
  {
    hide RowOf, Flow;
    if assets != [] {
      var n := |assets| - 1;
      var last := assets[n];
      assert last in assets;
      assert forall a :: a in assets[..n] ==> a in assets;
      FlowIsFold(state, targets, prices, pv, assets[..n], flows);
      RowAt(state, targets, prices, pv, assets, n);
      var rows := Rows(state, targets, prices, pv, assets);
      assert rows[..n] == Rows(state, targets, prices, pv, assets[..n]);
    }
  }

  /** One side's notionals spread over a larger set of assets. */
  function Spread(side: map<Asset, real>, prices: map<Asset, real>, universe: set<Asset>): (r: map<Asset, real>)
    requires side.Keys <= prices.Keys
    ensures r.Keys == universe
    ensures forall a :: a in universe ==> r[a] == if a in side then SideNotional(side, prices)[a] else 0.0
  {
    map a | a in universe :: if a in side then SideNotional(side, prices)[a] else 0.0
  }

  function FlowMap(state: PortfolioState, targets: Weights, prices: map<Asset, real>, pv: real, universe: set<Asset>): (r: map<Asset, real>)
    requires Priced(prices, universe)
    ensures r.Keys == universe
    ensures forall a :: a in universe ==> r[a] == Flow(RowOf(state, targets, prices, pv, a))
  {
    map a | a in universe :: Flow(RowOf(state, targets, prices, pv, a))
  }

  lemma FlowBalances(state: PortfolioState, targets: Weights, prices: map<Asset, real>, a: Asset)
    requires Reconcile(state, targets, prices).Planned? && a in PlanningSet(state, targets)
    requires var plan := Reconcile(state, targets, prices);
      SideMap(plan.orders, Sell).Keys <= prices.Keys && SideMap(plan.orders, Buy).Keys <= prices.Keys
    ensures a in prices && prices[a] > 0.0
    ensures var plan, universe := Reconcile(state, targets, prices), PlanningSet(state, targets);
      Spread(SideMap(plan.orders, Sell), prices, universe)[a]
      == Flow(PlannedRow(state, targets, prices, a)) + Spread(SideMap(plan.orders, Buy), prices, universe)[a]
  {
    hide Reconcile, RowOf, PlanningSet, Times, SideMap;
    SideOf(state, targets, prices, a);
    PlannedPrice(state, targets, prices, a);
  }

  lemma PlannedPrice(state: PortfolioState, targets: Weights, prices: map<Asset, real>, a: Asset)
    requires Reconcile(state, targets, prices).Planned? && a in prices && prices[a] > 0.0
    ensures PlannedRow(state, targets, prices, a).price == prices[a]
  {
    hide Reconcile;
  }

  lemma SidesPricedByPlan(state: PortfolioState, targets: Weights, prices: map<Asset, real>)
    requires Reconcile(state, targets, prices).Planned?
    ensures SideMap(Reconcile(state, targets, prices).orders, Sell).Keys <= prices.Keys
    ensures SideMap(Reconcile(state, targets, prices).orders, Buy).Keys <= prices.Keys
  {
    hide Reconcile, PlanningSet, SideMap;
    PlanShape(state, targets, prices);
    SidesPlanned(state, targets, prices);
  }

  /** Projected cash is cash plus all sell proceeds less all buy costs. */
  lemma ProjectedCashSplits(state: PortfolioState, targets: Weights, prices: map<Asset, real>)
    requires Reconcile(state, targets, prices).Planned?
    ensures var plan := Reconcile(state, targets, prices);
      var sells, buys := SideMap(plan.orders, Sell), SideMap(plan.orders, Buy);
      sells.Keys <= prices.Keys && buys.Keys <= prices.Keys
      && plan.projectedCash == state.cash + SumMap(SideNotional(sells, prices)) - SumMap(SideNotional(buys, prices))
  {
    hide Reconcile, RowOf, PlanningSet, Rows, TotalFlow, SumMap, SumKeys, SellOrders, BuyOrders, Times, SideMap, Flow;
    PlanShape(state, targets, prices);
    SidesPlanned(state, targets, prices);
    SidesPricedByPlan(state, targets, prices);
    var plan := Reconcile(state, targets, prices);
    var universe := PlanningSet(state, targets);
    var sells, buys := SideMap(plan.orders, Sell), SideMap(plan.orders, Buy);
    var flows := FlowMap(state, targets, prices, plan.portfolioValue, universe);
    var ins, outs := Spread(sells, prices, universe), Spread(buys, prices, universe);
    forall a | a in universe ensures ins[a] == flows[a] + outs[a] {
      FlowBalances(state, targets, prices, a);
    }
    FlowIsFold(state, targets, prices, plan.portfolioValue, Sorted(universe), flows);
    SumKeysIsSum(flows, Sorted(universe));
    SumAdd(flows, outs, ins);
    SumOverPart(ins, SideNotional(sells, prices));
    SumOverPart(outs, SideNotional(buys, prices));
  }

  /** The ledger after the free sells. */
  lemma FreeSold(state: PortfolioState, sells: map<Asset, real>, p: map<Asset, real>)
    requires sells.Keys <= p.Keys && BuyPrices(Sorted(sells.Keys), sells, p)
    requires forall a :: a in sells ==> 0.0 < sells[a] <= QuantityOf(state.positions, a)
    ensures var l := SellAll(Ledger(state.cash, state.positions, []), Sorted(sells.Keys), sells, p, 0.0);
      && LedgerOk(l) && NoneScaled(l.fills) && l.cash == state.cash + SumMap(SideNotional(sells, p))
      && forall a :: QuantityOf(l.positions, a) == QuantityOf(state.positions, a) - QuantityOf(sells, a)
  {
    hide SellAll, Times, SumKeys, SumMap, BuyPrices, SellFills, NoneScaled, LedgerOk;
    var s, ins := Sorted(sells.Keys), SideNotional(sells, p);
    SettledStart(state);
    var l := Ledger(state.cash, state.positions, []);
    FreeSells(l, s, sells, p, ins);
    SumKeysIsSum(ins, s);
    SellAllOk(l, s, sells, p, 0.0);
    SoldFills(l, s, sells, p, 0.0);
    SellsNeverScaled(SellAll(l, s, sells, p, 0.0).fills, s, sells, state.positions, p);
  }

  /** Orders that sell no more than is held, and whose buys the cash covers, fill in full at no cost. */
  lemma FreeFill(state: PortfolioState, orders: seq<Order>, p: map<Asset, real>)
    requires OrdersPriced(orders, p)
    requires var sells, buys := SideMap(orders, Sell), SideMap(orders, Buy);
      sells.Keys <= p.Keys && buys.Keys <= p.Keys
      && (forall a :: a in sells ==> sells[a] <= QuantityOf(state.positions, a))
      && SumMap(SideNotional(buys, p)) <= state.cash + SumMap(SideNotional(sells, p))
    ensures var l := Filled(state, orders, p, 0.0);
      var sells, buys := SideMap(orders, Sell), SideMap(orders, Buy);
      && NoneScaled(l.fills)
      && l.cash == state.cash + SumMap(SideNotional(sells, p)) - SumMap(SideNotional(buys, p))
      && forall a :: QuantityOf(l.positions, a) == QuantityOf(state.positions, a) - QuantityOf(sells, a) + QuantityOf(buys, a)
  {
    hide SellAll, BuyAll, Times, SumKeys, SumMap, SideMap, OrdersPriced, BuyPrices, NoneScaled, LedgerOk;
    var sells, buys := SideMap(orders, Sell), SideMap(orders, Buy);
    var b, outs := Sorted(buys.Keys), SideNotional(buys, p);
    SidesPriced(orders, p);
    FreeSold(state, sells, p);
    var sold := SellAll(Ledger(state.cash, state.positions, []), Sorted(sells.Keys), sells, p, 0.0);
    SumKeysIsSum(outs, b);
    FreeBuys(sold, b, buys, p, outs);
  }

  /* ---- the fixpoint ---- */

  /** The fill event happens at the planning prices. */
  ghost predicate FillsAtPlanningPrices(orders: seq<Order>, view: DataView, date: Date, prices: map<Asset, real>) {
    forall o :: o in orders ==> o.asset in prices && view.OpenPrice(o.asset, date) == Some(prices[o.asset])
  }

  lemma RebalanceApplies(state: PortfolioState, targets: Weights, prices: map<Asset, real>, view: DataView, date: Date, bps: real)
    requires Reconcile(state, targets, prices).Planned? && PositiveOpens(view) && CostsSupported(bps)
    requires forall o :: o in Reconcile(state, targets, prices).orders ==> view.OpenPrice(o.asset, date).Some?
    ensures ApplyOrders(state, Reconcile(state, targets, prices).orders, view, date, bps).Applied?
  {
    hide Reconcile, ApplyOrders, DataView.OpenPrice;
    PlanOrdersSound(state, targets, prices);
    AllOrNothing(state, Reconcile(state, targets, prices).orders, view, date, bps);
  }

  /** The opens read for the plan's orders are its planning prices. */
  lemma PlanningOpens(state: PortfolioState, targets: Weights, prices: map<Asset, real>, view: DataView, date: Date)
    requires Reconcile(state, targets, prices).Planned? && PositiveOpens(view)
    requires FillsAtPlanningPrices(Reconcile(state, targets, prices).orders, view, date, prices)
    ensures var orders := Reconcile(state, targets, prices).orders;
      var p, sells, buys := OpensFor(view, date, orders), SideMap(orders, Sell), SideMap(orders, Buy);
      && OrdersPriced(orders, p)
      && sells.Keys <= p.Keys && buys.Keys <= p.Keys && sells.Keys <= prices.Keys && buys.Keys <= prices.Keys
      && SideNotional(sells, p) == SideNotional(sells, prices) && SideNotional(buys, p) == SideNotional(buys, prices)
  {
    hide Reconcile, OrderFaults, DataView.OpenPrice, ApplyOrders, SideMap, SideNotional;
    RebalanceApplies(state, targets, prices, view, date, 0.0);
    var orders := Reconcile(state, targets, prices).orders;
    AppliedHasNoFaults(state, orders, view, date, 0.0);
    FillsAreDefined(state, orders, view, date);
    var p := OpensFor(view, date, orders);
    forall o | o in orders ensures o.asset in p && o.asset in prices && p[o.asset] == prices[o.asset] { }
    SidesSamePrice(orders, p, prices);
  }

  lemma SidesSamePrice(orders: seq<Order>, p: map<Asset, real>, prices: map<Asset, real>)
    requires forall o :: o in orders ==> o.asset in p && o.asset in prices && p[o.asset] == prices[o.asset]
    ensures var sells, buys := SideMap(orders, Sell), SideMap(orders, Buy);
      && sells.Keys <= p.Keys && buys.Keys <= p.Keys && sells.Keys <= prices.Keys && buys.Keys <= prices.Keys
      && SideNotional(sells, p) == SideNotional(sells, prices) && SideNotional(buys, p) == SideNotional(buys, prices)
  {
    hide Times;
    var sells, buys := SideMap(orders, Sell), SideMap(orders, Buy);
    forall a | a in sells ensures a in p && a in prices && p[a] == prices[a] {
      assert Order(Sell, a, sells[a]) in orders;
    }
    forall a | a in buys ensures a in p && a in prices && p[a] == prices[a] {
      assert Order(Buy, a, buys[a]) in orders;
    }
  }

  lemma AppliedHasNoFaults(state: PortfolioState, orders: seq<Order>, view: DataView, date: Date, bps: real)
    requires PositiveOpens(view) && ApplyOrders(state, orders, view, date, bps).Applied?
    ensures CostsSupported(bps) && OrderFaults(state, view, date, orders) == multiset{}
    ensures OrdersPriced(orders, OpensFor(view, date, orders))
    ensures var l := Filled(state, orders, OpensFor(view, date, orders), CostFactor(bps));
      ApplyOrders(state, orders, view, date, bps).state == Holdings(l.cash, l.positions)
      && ApplyOrders(state, orders, view, date, bps).fills == l.fills
  {
    hide OrderFaults, OpensFor, Filled, OrdersPriced;
    FillsAreDefined(state, orders, view, date);
  }

  /** After the fills each traded asset is at its target quantity and every other asset is untouched;
      no buy was scaled and cash is exactly the projection. */
  lemma RebalanceReachesTargets(state: PortfolioState, targets: Weights, prices: map<Asset, real>, view: DataView, date: Date)
    requires Reconcile(state, targets, prices).Planned? && PositiveOpens(view)
    requires Reconcile(state, targets, prices).projectedCash >= 0.0
    requires FillsAtPlanningPrices(Reconcile(state, targets, prices).orders, view, date, prices)
    ensures var plan := Reconcile(state, targets, prices);
      var r := ApplyOrders(state, plan.orders, view, date, 0.0);
      && r.Applied? && NoneScaled(r.fills)
      && r.state.cash == plan.projectedCash
      && forall a :: QuantityOf(r.state.positions, a) == SettledQuantity(state, targets, prices, a)
  {
    hide Reconcile, ApplyOrders, Filled, OpensFor, Times, SumMap, RowOf, PlanningSet, SideMap, OrdersPriced, NoneScaled, PositiveOpens,
      FillsAtPlanningPrices, SettledQuantity;
    var plan := Reconcile(state, targets, prices);
    RebalanceOpens(state, targets, prices, view, date);
    RebalanceApplies(state, targets, prices, view, date, 0.0);
    AppliedHasNoFaults(state, plan.orders, view, date, 0.0);
    PlanningOpens(state, targets, prices, view, date);
    ProjectedCashSplits(state, targets, prices);
    var p, sells := OpensFor(view, date, plan.orders), SideMap(plan.orders, Sell);
    SidesPlanned(state, targets, prices);
    forall a | a in sells ensures sells[a] <= QuantityOf(state.positions, a) {
      SideOf(state, targets, prices, a);
      PlannedCurrent(state, targets, prices, a);
    }
    FreeFill(state, plan.orders, p);
    ZeroFactor();
    forall a ensures QuantityOf(state.positions, a) - QuantityOf(sells, a) + QuantityOf(SideMap(plan.orders, Buy), a)
                  == SettledQuantity(state, targets, prices, a) {
      TradedQuantity(state, targets, prices, a);
    }
  }

  lemma RebalanceOpens(state: PortfolioState, targets: Weights, prices: map<Asset, real>, view: DataView, date: Date)
    requires Reconcile(state, targets, prices).Planned?
    requires FillsAtPlanningPrices(Reconcile(state, targets, prices).orders, view, date, prices)
    ensures forall o :: o in Reconcile(state, targets, prices).orders ==> view.OpenPrice(o.asset, date).Some?
  {
    hide Reconcile, DataView.OpenPrice;
  }

  /** Traded assets settle at their target, all others stay where they were. */
  function SettledQuantity(state: PortfolioState, targets: Weights, prices: map<Asset, real>, a: Asset): real
    requires Reconcile(state, targets, prices).Planned?
  {
    if a in PlanningSet(state, targets) && a in prices && prices[a] > 0.0 then
      var row := PlannedRow(state, targets, prices, a);
      if row.action == BuyIt || row.action == SellIt then row.targetQuantity else row.current
    else QuantityOf(state.positions, a)
  }

  lemma TradedQuantity(state: PortfolioState, targets: Weights, prices: map<Asset, real>, a: Asset)
    requires Reconcile(state, targets, prices).Planned?
    ensures var orders := Reconcile(state, targets, prices).orders;
      QuantityOf(state.positions, a) - QuantityOf(SideMap(orders, Sell), a) + QuantityOf(SideMap(orders, Buy), a)
      == SettledQuantity(state, targets, prices, a)
  {
    hide Reconcile, RowOf, PlanningSet, SideMap;
    SidesPlanned(state, targets, prices);
    if a in PlanningSet(state, targets) {
      SideOf(state, targets, prices, a);
      PlannedCurrent(state, targets, prices, a);
    }
  }

  lemma ZeroFactor()
    ensures CostFactor(0.0) == 0.0
  {
  }

  lemma PlannedCurrent(state: PortfolioState, targets: Weights, prices: map<Asset, real>, a: Asset)
    requires Reconcile(state, targets, prices).Planned? && a in prices && prices[a] > 0.0
    ensures var row := PlannedRow(state, targets, prices, a);
      row.current == QuantityOf(state.positions, a) && row.delta == row.targetQuantity - row.current
  {
    hide Reconcile;
  }

  lemma SellsNeverScaled(fills: seq<Fill>, names: seq<Asset>, wanted: map<Asset, real>, positions: map<Asset, real>, prices: map<Asset, real>)
    requires BuyPrices(names, wanted, prices) && SellFills(fills, names, wanted, positions, prices, 0.0)
    ensures NoneScaled(fills)
  {
    hide Times;
  }

  /* ---- reconciling again ---- */

  lemma FreeFillsAreFree(state: PortfolioState, orders: seq<Order>, view: DataView, date: Date)
    requires PositiveOpens(view) && ApplyOrders(state, orders, view, date, 0.0).Applied?
    ensures Costs(ApplyOrders(state, orders, view, date, 0.0).fills) == 0.0
  {
    hide ApplyOrders, OpensFor, SideMap, BuyPrices, SellFills, BuyFills, ShortfallLast, Costs, Sorted;
    FillsMatchOrders(state, orders, view, date, 0.0);
    ZeroFactor();
    var fills, opens := ApplyOrders(state, orders, view, date, 0.0).fills, OpensFor(view, date, orders);
    var sells, buys := SideMap(orders, Sell), SideMap(orders, Buy);
    var s, b := Sorted(sells.Keys), Sorted(buys.Keys);
    var sold, bought := fills[..|s|], fills[|s|..];
    FreeSellFills(sold, s, sells, state.positions, opens);
    FreeBuyFills(bought, b, buys, opens);
    assert fills == sold + bought;
    FreeFillsCostNothing(fills);
  }

  lemma FreeSellFills(fills: seq<Fill>, names: seq<Asset>, wanted: map<Asset, real>, positions: map<Asset, real>, prices: map<Asset, real>)
    requires BuyPrices(names, wanted, prices) && SellFills(fills, names, wanted, positions, prices, 0.0)
    ensures forall i :: 0 <= i < |fills| ==> fills[i].cost == 0.0
  {
    hide Times;
    forall i | 0 <= i < |fills| ensures fills[i].cost == 0.0 {
      assert SellFill(fills[i], names[i], wanted[names[i]], QuantityOf(positions, names[i]), prices[names[i]], 0.0);
      ZeroCost(Times(fills[i].quantity, prices[names[i]]));
    }
  }

  lemma FreeBuyFills(fills: seq<Fill>, names: seq<Asset>, wanted: map<Asset, real>, prices: map<Asset, real>)
    requires BuyPrices(names, wanted, prices) && BuyFills(fills, names, wanted, prices, 0.0)
    ensures forall i :: 0 <= i < |fills| ==> fills[i].cost == 0.0
  {
    hide Times;
    forall i | 0 <= i < |fills| ensures fills[i].cost == 0.0 {
      assert BuyFill(fills[i], names[i], wanted[names[i]], prices[names[i]], 0.0);
      ZeroCost(Times(fills[i].quantity, prices[names[i]]));
    }
  }

  /** Held assets stay within the planning set, so portfolio value is defined and unchanged. */
  lemma RebalanceKeepsValue(state: PortfolioState, targets: Weights, prices: map<Asset, real>, view: DataView, date: Date)
    requires Reconcile(state, targets, prices).Planned? && PositiveOpens(view)
    requires Reconcile(state, targets, prices).projectedCash >= 0.0
    requires FillsAtPlanningPrices(Reconcile(state, targets, prices).orders, view, date, prices)
    ensures var plan := Reconcile(state, targets, prices);
      var r := ApplyOrders(state, plan.orders, view, date, 0.0);
      && r.Applied? && r.state.positions.Keys <= PlanningSet(state, targets) && r.state.positions.Keys <= prices.Keys
      && PortfolioValue(r.state, prices) == plan.portfolioValue
  {
    hide Reconcile, ApplyOrders, SumMap, RowOf, SettledQuantity, PositiveOpens, DataView.OpenPrice, Worth, NoneScaled;
    var plan := Reconcile(state, targets, prices);
    PlanShape(state, targets, prices);
    RebalanceReachesTargets(state, targets, prices, view, date);
    var r := ApplyOrders(state, plan.orders, view, date, 0.0);
    forall a | a in r.state.positions ensures a in PlanningSet(state, targets) {
      UnplannedUntouched(state, targets, prices, a);
      assert QuantityOf(r.state.positions, a) == r.state.positions[a] > 0.0;
    }
    ValueDropsByCosts(state, plan.orders, view, date, 0.0, prices);
    FreeFillsAreFree(state, plan.orders, view, date);
  }

  lemma UnplannedUntouched(state: PortfolioState, targets: Weights, prices: map<Asset, real>, a: Asset)
    requires Reconcile(state, targets, prices).Planned?
    ensures a !in PlanningSet(state, targets) ==> SettledQuantity(state, targets, prices, a) == 0.0
  {
    hide Reconcile;
  }

  /** At its settled quantity an asset is due no further order. */
  lemma SettledRowRests(asset: Asset, price: real, current: real, weight: real, pv: real, settled: real)
    requires price > 0.0 && current >= 0.0 && weight >= 0.0 && pv >= 0.0
    requires var row := Row(asset, price, current, weight, pv);
      settled == if row.action == BuyIt || row.action == SellIt then row.targetQuantity else row.current
    ensures var again := Row(asset, price, settled, weight, pv);
      again.action == Hold || again.action == Dust
  {
  }

  /** Rebalance fixpoint: after filling a plan with non-negative projected cash at its own prices and without
      costs, planning again emits no order. */
  lemma RebalanceFixpoint(state: PortfolioState, targets: Weights, prices: map<Asset, real>, view: DataView, date: Date)
    requires Reconcile(state, targets, prices).Planned? && PositiveOpens(view)
    requires Reconcile(state, targets, prices).projectedCash >= 0.0
    requires FillsAtPlanningPrices(Reconcile(state, targets, prices).orders, view, date, prices)
    ensures var plan := Reconcile(state, targets, prices);
      var r := ApplyOrders(state, plan.orders, view, date, 0.0);
      && r.Applied?
      && Reconcile(r.state, targets, prices).Planned?
      && Reconcile(r.state, targets, prices).orders == []
      && Reconcile(r.state, targets, prices).portfolioValue == plan.portfolioValue
  {
    hide ApplyOrders, SumMap, RowOf, SettledQuantity, PositiveOpens, DataView.OpenPrice, Worth, NoneScaled, PlanAt, Rows, PriceFaults,
      PlanningSet, Reconcile, FillsAtPlanningPrices, PortfolioValue, RowOf;
    RebalanceReachesTargets(state, targets, prices, view, date);
    RebalanceKeepsValue(state, targets, prices, view, date);
    var plan := Reconcile(state, targets, prices);
    var settled := ApplyOrders(state, plan.orders, view, date, 0.0).state;
    PlannedAgain(state, targets, prices, settled);
    PlanShape(settled, targets, prices);
    var again := Reconcile(settled, targets, prices);
    forall o ensures o !in again.orders {
      if o in again.orders {
        PlanOrder(settled, targets, prices, o);
        PlanningSetShrinks(state, targets, settled, o.asset);
        RowRests(state, targets, prices, settled, o.asset);
      }
    }
    FirstOrderIn(again.orders);
  }

  lemma FirstOrderIn(orders: seq<Order>)
    ensures orders != [] ==> orders[0] in orders
  {
  }

  lemma PlanningSetShrinks(state: PortfolioState, targets: Weights, settled: PortfolioState, a: Asset)
    requires settled.positions.Keys <= PlanningSet(state, targets)
    requires a in PlanningSet(settled, targets)
    ensures a in PlanningSet(state, targets)
  {
  }

  /** A plan exists exactly when everything held or targeted has a valid price. */
  lemma PlannedIffPriced(state: PortfolioState, targets: Weights, prices: map<Asset, real>)
    ensures Reconcile(state, targets, prices).Planned? <==> Priced(prices, PlanningSet(state, targets))
  {
    hide Rows, PositiveWeights, PortfolioValue, PriceFaults, PlanningSet, SumMap, AllTradeable, SellOrders, BuyOrders, TotalFlow;
    var assets := Sorted(PlanningSet(state, targets));
    PriceFaultsEmpty(prices, assets);
    if PriceFaults(prices, assets) == multiset{} {
      PlanIsDefined(state, targets, prices);
    }
    if Priced(prices, PlanningSet(state, targets)) {
      forall a | a in assets ensures a in prices && prices[a] > 0.0 { }
    }
  }

  lemma PlannedAgain(state: PortfolioState, targets: Weights, prices: map<Asset, real>, settled: PortfolioState)
    requires Reconcile(state, targets, prices).Planned?
    requires settled.positions.Keys <= PlanningSet(state, targets)
    ensures Reconcile(settled, targets, prices).Planned?
  {
    hide Reconcile, PlanningSet;
    PlannedIffPriced(state, targets, prices);
    PlannedIffPriced(settled, targets, prices);
    forall a | a in PlanningSet(settled, targets) ensures a in prices && prices[a] > 0.0 {
      PlanningSetShrinks(state, targets, settled, a);
    }
  }

  lemma RowRests(state: PortfolioState, targets: Weights, prices: map<Asset, real>, settled: PortfolioState, a: Asset)
    requires Reconcile(state, targets, prices).Planned? && a in PlanningSet(state, targets) && a in prices && prices[a] > 0.0
    requires QuantityOf(settled.positions, a) == SettledQuantity(state, targets, prices, a)
    ensures var again := RowOf(settled, targets, prices, Reconcile(state, targets, prices).portfolioValue, a);
      again.action == Hold || again.action == Dust
  {
    hide Reconcile, Row;
    PlanShape(state, targets, prices);
    SettledRowRests(a, prices[a], QuantityOf(state.positions, a), QuantityOf(PositiveWeights(targets), a),
                    Reconcile(state, targets, prices).portfolioValue, QuantityOf(settled.positions, a));
    PlannedCurrent(state, targets, prices, a);
  }
}
