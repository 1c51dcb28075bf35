/** What an order plan says, written out in prices, weights and quantities: quantize/engine/reconcile.py. */
module PlanNumbers {
  import opened Collections
  import opened Diagnostics
  import opened Market
  import opened PlanProperties
  import opened Portfolio
  import opened Reconciliation

  /** The larger of the portfolio value and one, times a billionth. */
  function Negligible(pv: real): real {
    (if pv >= 1.0 then pv else 1.0) * 0.000000001
  }

  function Magnitude(x: real): real {
    if x < 0.0 then -x else x
  }

  /** A row trades if it liquidates an asset that is no longer wanted, or is worth more than the negligible amount. */
  ghost predicate Trades(row: AssetPlan, pv: real) {
    (row.weight == 0.0 && row.current > 0.0) || Magnitude(row.delta) * row.price > Negligible(pv)
  }

  /** The row of an asset: its target is worth its weight of the portfolio, and it moves the holding there if it trades. */
  ghost predicate RowSays(row: AssetPlan, state: PortfolioState, targets: Weights, prices: map<Asset, real>, pv: real) {
    && row.asset in prices && row.price == prices[row.asset] && row.price > 0.0
    && row.current == QuantityOf(state.positions, row.asset) && row.weight == QuantityOf(targets, row.asset)
    && row.targetNotional == row.weight * pv && row.targetQuantity * row.price == row.targetNotional
    && row.delta == row.targetQuantity - row.current
    && row.action == (if row.delta == 0.0 then Hold else if !Trades(row, pv) then Dust else if row.delta > 0.0 then BuyIt else SellIt)
  }

  lemma WeightIs(targets: Weights, asset: Asset)
    ensures QuantityOf(PositiveWeights(targets), asset) == QuantityOf(targets, asset)
  {
    hide SumMap;
  }

  lemma RowIs(state: PortfolioState, targets: Weights, prices: map<Asset, real>, pv: real, asset: Asset)
    requires asset in prices && prices[asset] > 0.0
    ensures RowSays(RowOf(state, targets, prices, pv, asset), state, targets, prices, pv)
    ensures RowOf(state, targets, prices, pv, asset).asset == asset
  {
    WeightIs(targets, asset);
    hide PositiveWeights, QuantityOf;
    RowNumbers(asset, prices[asset], QuantityOf(state.positions, asset), QuantityOf(targets, asset), pv) by { NotNegative(state, targets, asset); }
  }

  lemma NotNegative(state: PortfolioState, targets: Weights, asset: Asset)
    ensures QuantityOf(targets, asset) >= 0.0 && QuantityOf(state.positions, asset) >= 0.0
  {
    hide SumMap;
  }

  lemma RowNumbers(asset: Asset, price: real, current: real, weight: real, pv: real)
    requires price > 0.0 && weight >= 0.0 && current >= 0.0
    ensures var row := Row(asset, price, current, weight, pv);
      && row.asset == asset && row.price == price && row.current == current && row.weight == weight
      && row.targetNotional == weight * pv && row.targetQuantity * price == row.targetNotional
      && row.delta == row.targetQuantity - current
      && row.action == (if row.delta == 0.0 then Hold else if !Trades(row, pv) then Dust else if row.delta > 0.0 then BuyIt else SellIt)
  {
    var row := Row(asset, price, current, weight, pv);
    assert Times(row.targetQuantity, price) == row.targetNotional;
    assert Times(Abs(row.delta), price) == Magnitude(row.delta) * price;
    assert DustThreshold(pv) == Negligible(pv);
  }

  lemma RowsSay(state: PortfolioState, targets: Weights, prices: map<Asset, real>, i: nat)
    requires Reconcile(state, targets, prices).Planned? && i < |Sorted(PlanningSet(state, targets))|
    ensures var plan := Reconcile(state, targets, prices);
      |plan.plans| == |Sorted(PlanningSet(state, targets))|
      && plan.plans[i].asset == Sorted(PlanningSet(state, targets))[i] && RowSays(plan.plans[i], state, targets, prices, plan.portfolioValue)
  {
    hide Reconcile, Rows, SellOrders, BuyOrders, TotalFlow, SumMap, RowOf, RowSays, PortfolioValue, AllTradeable, PlanningSet, TargetCash, PositiveWeights;
    PlanShape(state, targets, prices);
    var plan, assets := Reconcile(state, targets, prices), Sorted(PlanningSet(state, targets));
    RowAt(state, targets, prices, plan.portfolioValue, assets, i);
    assert assets[i] in assets;
    RowIs(state, targets, prices, plan.portfolioValue, assets[i]);
  }

  lemma PlanningMember(state: PortfolioState, targets: Weights, a: Asset)
    ensures a in PlanningSet(state, targets) <==> a in state.positions || (a in targets && targets[a] > 0.0)
  {
    hide SumMap;
  }

  lemma ValueSays(state: PortfolioState, targets: Weights, prices: map<Asset, real>)
    requires Reconcile(state, targets, prices).Planned?
    ensures var plan := Reconcile(state, targets, prices);
      && state.positions.Keys <= prices.Keys && plan.portfolioValue == state.cash + Worth(state.positions, prices)
      && plan.targetCash == (1.0 - SumMap(targets)) * plan.portfolioValue
  {
    hide Reconcile, Rows, SellOrders, BuyOrders, TotalFlow, SumMap, Worth, AllTradeable, PlanningSet, PositiveWeights;
    PlanShape(state, targets, prices);
    WeightsSum(targets);
    SumOverPart(targets, PositiveWeights(targets));
    var pv := Reconcile(state, targets, prices).portfolioValue;
    assert TargetCash(SumMap(targets), pv) == (1.0 - SumMap(targets)) * pv;
  }

  /** The plan: its value, its target cash, and one row for every held or targeted asset, in order. */
  lemma PlanSays(state: PortfolioState, targets: Weights, prices: map<Asset, real>)
    requires Reconcile(state, targets, prices).Planned?
    ensures var plan := Reconcile(state, targets, prices);
      && state.positions.Keys <= prices.Keys && plan.portfolioValue == state.cash + Worth(state.positions, prices)
      && plan.targetCash == (1.0 - SumMap(targets)) * plan.portfolioValue
      && (forall i, j :: 0 <= i < j < |plan.plans| ==> plan.plans[i].asset < plan.plans[j].asset)
      && (forall a :: (exists i :: 0 <= i < |plan.plans| && plan.plans[i].asset == a)
            <==> a in state.positions || (a in targets && targets[a] > 0.0))
      && (forall i :: 0 <= i < |plan.plans| ==> RowSays(plan.plans[i], state, targets, prices, plan.portfolioValue))
  {
    hide Reconcile, RowSays, SumMap, Worth, PlanningSet;
    ValueSays(state, targets, prices);
    var plan, assets := Reconcile(state, targets, prices), Sorted(PlanningSet(state, targets));
    RowsCount(state, targets, prices);
    forall i | 0 <= i < |plan.plans|
      ensures plan.plans[i].asset == assets[i] && RowSays(plan.plans[i], state, targets, prices, plan.portfolioValue)
    {
      RowsSay(state, targets, prices, i);
    }
    forall a ensures (exists i :: 0 <= i < |plan.plans| && plan.plans[i].asset == a) <==> a in state.positions || (a in targets && targets[a] > 0.0) {
      PlanningMember(state, targets, a);
      if a in assets {
        var i :| 0 <= i < |assets| && assets[i] == a;
        assert plan.plans[i].asset == a;
      }
    }
  }

  lemma RowsCount(state: PortfolioState, targets: Weights, prices: map<Asset, real>)
    requires Reconcile(state, targets, prices).Planned?
    ensures |Reconcile(state, targets, prices).plans| == |Sorted(PlanningSet(state, targets))|
  {
    hide Reconcile, SellOrders, BuyOrders, TotalFlow, SumMap, PortfolioValue, AllTradeable, PlanningSet, TargetCash, PositiveWeights;
    PlanShape(state, targets, prices);
  }

  lemma WeightsSum(targets: Weights)
    ensures PositiveWeights(targets).Keys <= targets.Keys
    ensures forall a :: a in targets ==> targets[a] == if a in PositiveWeights(targets) then PositiveWeights(targets)[a] else 0.0
  {
    hide SumMap;
  }

  /** An order for exactly the rows that trade, of exactly the delta. */
  lemma OrdersSay(state: PortfolioState, targets: Weights, prices: map<Asset, real>, o: Order)
    requires Reconcile(state, targets, prices).Planned?
    ensures var plan := Reconcile(state, targets, prices);
      o in plan.orders <==> exists i :: 0 <= i < |plan.plans| && OrderOf(plan.plans[i], o)
  {
    hide Reconcile, Rows, SellOrders, BuyOrders, TotalFlow, SumMap, PortfolioValue, AllTradeable, PlanningSet, TargetCash, PositiveWeights, SoldQuantity;
    PlanShape(state, targets, prices);
    var rows := Reconcile(state, targets, prices).plans;
    SellOrdersMember(rows, o);
    BuyOrdersMember(rows, o);
    SellsOfRows(rows);
    if o in SellOrders(rows) {
      var i :| 0 <= i < |rows| && rows[i].action == SellIt && o == Order(Sell, rows[i].asset, SoldQuantity(rows[i]));
      assert OrderOf(rows[i], o);
    }
    if o in BuyOrders(rows) {
      var i :| 0 <= i < |rows| && rows[i].action == BuyIt && o == Order(Buy, rows[i].asset, rows[i].delta);
      assert OrderOf(rows[i], o);
    }
  }

  /** Sells come before buys, and each side is in asset order. */
  lemma OrdersInOrder(state: PortfolioState, targets: Weights, prices: map<Asset, real>)
    requires Reconcile(state, targets, prices).Planned?
    ensures var orders := Reconcile(state, targets, prices).orders;
      && (forall i, j :: 0 <= i < j < |orders| ==> orders[i].side == Sell || orders[j].side == Buy)
      && (forall i, j :: 0 <= i < j < |orders| && orders[i].side == orders[j].side ==> orders[i].asset < orders[j].asset)
  {
    hide Reconcile, Rows, SellOrders, BuyOrders, TotalFlow, SumMap, PortfolioValue, AllTradeable, PlanningSet, TargetCash, PositiveWeights, RowSays, Worth;
    PlanShape(state, targets, prices);
    PlanSays(state, targets, prices);
    var rows := Reconcile(state, targets, prices).plans;
    OrdersAscend(rows);
    SidesOf(rows);
  }

  /** The order that a trading row gives. */
  ghost predicate OrderOf(row: AssetPlan, o: RawOrder) {
    o.asset == row.asset && ((row.action == SellIt && o.side == Sell && o.quantity == -row.delta)
                             || (row.action == BuyIt && o.side == Buy && o.quantity == row.delta))
  }

  lemma SellsOfRows(rows: seq<AssetPlan>)
    requires AllTradeable(rows)
    ensures forall i :: 0 <= i < |rows| && rows[i].action == SellIt ==> SoldQuantity(rows[i]) == -rows[i].delta
  {
    forall i | 0 <= i < |rows| && rows[i].action == SellIt ensures SoldQuantity(rows[i]) == -rows[i].delta {
      assert Tradeable(rows[i]);
    }
  }

  lemma SidesOf(rows: seq<AssetPlan>)
    requires AllTradeable(rows)
    ensures forall i :: 0 <= i < |SellOrders(rows)| ==> SellOrders(rows)[i].side == Sell
    ensures forall i :: 0 <= i < |BuyOrders(rows)| ==> BuyOrders(rows)[i].side == Buy
  {
    forall i | 0 <= i < |SellOrders(rows)| ensures SellOrders(rows)[i].side == Sell {
      SellOrdersMember(rows, SellOrders(rows)[i]);
    }
    forall i | 0 <= i < |BuyOrders(rows)| ensures BuyOrders(rows)[i].side == Buy {
      BuyOrdersMember(rows, BuyOrders(rows)[i]);
    }
  }

  /** What the trading rows take out of cash at planning prices. */
  function Outlay(rows: seq<AssetPlan>): real {
    if rows == [] then 0.0
    else Outlay(rows[1..]) + if rows[0].action == BuyIt || rows[0].action == SellIt then rows[0].delta * rows[0].price else 0.0
  }

  lemma {:induction false} OutlaySnoc(rows: seq<AssetPlan>, row: AssetPlan)
    ensures Outlay(rows + [row]) == Outlay(rows) + if row.action == BuyIt || row.action == SellIt then row.delta * row.price else 0.0
  {
    if rows == [] {
      assert rows + [row] == [row];
      assert [row][1..] == [];
    } else {
      assert (rows + [row])[1..] == rows[1..] + [row];
      OutlaySnoc(rows[1..], row);
    }
  }

  lemma {:induction false} FlowIsOutlay(rows: seq<AssetPlan>)
    requires AllTradeable(rows)
    ensures TotalFlow(rows) == -Outlay(rows)
  {
    if rows != [] {
      var n := |rows| - 1;
      FlowIsOutlay(rows[..n]);
      OutlaySnoc(rows[..n], rows[n]);
      assert rows == rows[..n] + [rows[n]];
      assert Tradeable(rows[n]);
    }
  }

  /** Projected cash is what the orders leave, and it misses the target cash by at most one negligible amount for every row
      left as dust. */
  lemma CashSays(state: PortfolioState, targets: Weights, prices: map<Asset, real>)
    requires Reconcile(state, targets, prices).Planned?
    ensures var plan := Reconcile(state, targets, prices);
      && plan.projectedCash == state.cash - Outlay(plan.plans)
      && Magnitude(plan.projectedCash - plan.targetCash) <= DustRows(plan.plans) as real * Negligible(plan.portfolioValue)
  {
    hide Reconcile, Rows, SellOrders, BuyOrders, TotalFlow, SumMap, RowOf, Worth, AllTradeable, DustRows, Outlay;
    PlanShape(state, targets, prices);
    PlannedCashNearTarget(state, targets, prices);
    FlowIsOutlay(Reconcile(state, targets, prices).plans);
    NegligibleIs(Reconcile(state, targets, prices).portfolioValue);
  }

  lemma NegligibleIs(pv: real)
    ensures DustThreshold(pv) == Negligible(pv)
  {
  }

  /* ---- refusals ---- */

  /** A held or targeted asset without a price, or with one that is not positive. */
  ghost predicate PriceFaultOf(state: PortfolioState, targets: Weights, prices: map<Asset, real>, f: Diagnostic) {
    (f.subject in state.positions || (f.subject in targets && targets[f.subject] > 0.0)) && PriceFaultAt(prices, f)
  }

  ghost predicate PriceFaultAt(prices: map<Asset, real>, f: Diagnostic) {
    f.path == []
    && match f.code
       case MissingReconciliationPrice => f.subject !in prices
       case InvalidReconciliationPrice => f.subject in prices && prices[f.subject] <= 0.0
       case _ => false
  }

  lemma {:induction false} PriceFindings(prices: map<Asset, real>, assets: seq<Asset>, f: Diagnostic)
    ensures f in PriceFaults(prices, assets) <==> f.subject in assets && PriceFaultAt(prices, f)
  {
    hide PriceFault, PriceFaultAt;
    if assets != [] {
      var front, last := assets[..|assets| - 1], assets[|assets| - 1];
      PriceFindings(prices, front, f);
      PriceFinding(prices, last, f);
      assert forall a :: a in assets <==> a in front || a == last;
    }
  }

  lemma PriceFinding(prices: map<Asset, real>, asset: Asset, f: Diagnostic)
    ensures f in PriceFault(prices, asset) <==> f.subject == asset && PriceFaultAt(prices, f)
  {
  }

  /** A plan is refused for exactly the price faults there are. */
  lemma RefusalSays(state: PortfolioState, targets: Weights, prices: map<Asset, real>)
    ensures var plan := Reconcile(state, targets, prices);
      && (plan.Refused? <==> exists f :: PriceFaultOf(state, targets, prices, f))
      && (plan.Refused? ==> forall f :: f in plan.diagnostics <==> PriceFaultOf(state, targets, prices, f))
  {
    hide PriceFaults, Rows, PortfolioValue, PlanningSet, SellOrders, BuyOrders, TotalFlow, TargetCash, PriceFaultAt;
    var assets := Sorted(PlanningSet(state, targets));
    forall f ensures f in PriceFaults(prices, assets) <==> PriceFaultOf(state, targets, prices, f) {
      PriceFindings(prices, assets, f);
      PlanningMember(state, targets, f.subject);
    }
    var faults := PriceFaults(prices, assets);
    if f :| f in faults {
      assert PriceFaultOf(state, targets, prices, f);
    }
    if f :| PriceFaultOf(state, targets, prices, f) {
      assert f in faults;
    }
  }
}
