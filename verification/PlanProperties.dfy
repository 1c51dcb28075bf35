/** What an order plan promises: one order per asset, no oversell, and nearly exact planned cash. */
module PlanProperties {
  import opened Collections
  import opened Diagnostics
  import opened Market
  import opened Portfolio
  import opened Reconciliation

  ghost predicate PricedAll(prices: map<Asset, real>, assets: seq<Asset>) {
    forall a :: a in assets ==> a in prices && prices[a] > 0.0
  }

  lemma {:induction false} RowAt(state: PortfolioState, targets: Weights, prices: map<Asset, real>, pv: real, assets: seq<Asset>, i: nat)
    requires PricedAll(prices, assets) && i < |assets|
    ensures Rows(state, targets, prices, pv, assets)[i] == RowOf(state, targets, prices, pv, assets[i])
  {
    var n := |assets| - 1;
    if i < n {
      RowAt(state, targets, prices, pv, assets[..n], i);
    }
  }

  lemma {:induction false} SellOrdersMember(rows: seq<AssetPlan>, o: Order)
    requires AllTradeable(rows)
    ensures o in SellOrders(rows)
        <==> exists i :: 0 <= i < |rows| && rows[i].action == SellIt && o == Order(Sell, rows[i].asset, SoldQuantity(rows[i]))
  {
    if rows != [] {
      var n := |rows| - 1;
      SellOrdersMember(rows[..n], o);
      assert forall i :: 0 <= i < n ==> rows[..n][i] == rows[i];
      if o in SellOrders(rows) && o !in SellOrders(rows[..n]) {
        assert rows[n].action == SellIt;
      }
    }
  }

  lemma {:induction false} BuyOrdersMember(rows: seq<AssetPlan>, o: Order)
    requires AllTradeable(rows)
    ensures o in BuyOrders(rows)
        <==> exists i :: 0 <= i < |rows| && rows[i].action == BuyIt && o == Order(Buy, rows[i].asset, rows[i].delta)
  {
    if rows != [] {
      var n := |rows| - 1;
      BuyOrdersMember(rows[..n], o);
      assert forall i :: 0 <= i < n ==> rows[..n][i] == rows[i];
      if o in BuyOrders(rows) && o !in BuyOrders(rows[..n]) {
        assert rows[n].action == BuyIt;
      }
    }
  }

  /** Canonical presentation: each side lists its assets in strictly ascending order. */
  ghost predicate AscendingAssets(orders: seq<Order>) {
    forall i, j :: 0 <= i < j < |orders| ==> orders[i].asset < orders[j].asset
  }

  lemma {:induction false} OrdersAscend(rows: seq<AssetPlan>)
    requires AllTradeable(rows)
    requires forall i, j :: 0 <= i < j < |rows| ==> rows[i].asset < rows[j].asset
    ensures AscendingAssets(SellOrders(rows)) && AscendingAssets(BuyOrders(rows))
  {
    if rows != [] {
      var n := |rows| - 1;
      OrdersAscend(rows[..n]);
      var sells, buys := SellOrders(rows[..n]), BuyOrders(rows[..n]);
      forall i | 0 <= i < |sells| ensures sells[i].asset < rows[n].asset {
        SellOrdersMember(rows[..n], sells[i]);
      }
      forall i | 0 <= i < |buys| ensures buys[i].asset < rows[n].asset {
        BuyOrdersMember(rows[..n], buys[i]);
      }
    }
  }

  /** At most one order per asset, over both sides. */
  ghost predicate OneOrderPerAsset(orders: seq<Order>) {
    forall i, j :: 0 <= i < j < |orders| ==> orders[i].asset != orders[j].asset
  }

  ghost predicate NoOversell(positions: map<Asset, real>, orders: seq<Order>) {
    forall o :: o in orders && o.side == Sell ==> o.quantity <= QuantityOf(positions, o.asset)
  }

  /** The shape of every plan `reconcile` emits. */
  lemma PlanShape(state: PortfolioState, targets: Weights, prices: map<Asset, real>)
    requires Reconcile(state, targets, prices).Planned?
    ensures var plan := Reconcile(state, targets, prices);
      var assets := Sorted(PlanningSet(state, targets));
      && Priced(prices, PlanningSet(state, targets)) && PricedAll(prices, assets)
      && state.positions.Keys <= prices.Keys
      && plan.portfolioValue == PortfolioValue(state, prices) >= 0.0
      && plan.plans == Rows(state, targets, prices, plan.portfolioValue, assets)
      && AllTradeable(plan.plans)
      && plan.orders == SellOrders(plan.plans) + BuyOrders(plan.plans)
      && plan.targetCash == TargetCash(SumMap(PositiveWeights(targets)), plan.portfolioValue)
      && plan.projectedCash == state.cash + TotalFlow(plan.plans)
  {
    hide Rows, SellOrders, BuyOrders, TotalFlow, PriceFaults, SumMap, AllTradeable, TargetCash, PositiveWeights,
      PortfolioValue, PlanningSet;
    PlanIsDefined(state, targets, prices);
  }

  /** An order for an asset says which row it came from. */
  lemma PlanOrder(state: PortfolioState, targets: Weights, prices: map<Asset, real>, o: Order)
    requires Reconcile(state, targets, prices).Planned?
    requires o in Reconcile(state, targets, prices).orders
    ensures o.asset in PlanningSet(state, targets) && o.asset in prices && prices[o.asset] > 0.0
    ensures var row := RowOf(state, targets, prices, Reconcile(state, targets, prices).portfolioValue, o.asset);
      Tradeable(row) && (if o.side == Sell then row.action == SellIt && o.quantity == SoldQuantity(row)
                         else row.action == BuyIt && o.quantity == row.delta)
  {
    hide Reconcile, Rows, SellOrders, BuyOrders, TotalFlow, PositiveWeights, PortfolioValue, PlanningSet, RowOf;
    PlanShape(state, targets, prices);
    var plan := Reconcile(state, targets, prices);
    var rows, assets := plan.plans, Sorted(PlanningSet(state, targets));
    var i: nat;
    if o in SellOrders(rows) {
      SellOrdersMember(rows, o);
      i :| 0 <= i < |rows| && rows[i].action == SellIt && o == Order(Sell, rows[i].asset, SoldQuantity(rows[i]));
    } else {
      BuyOrdersMember(rows, o);
      i :| 0 <= i < |rows| && rows[i].action == BuyIt && o == Order(Buy, rows[i].asset, rows[i].delta);
    }
    RowAt(state, targets, prices, plan.portfolioValue, assets, i);
    assert assets[i] in assets;
  }

  /** Conversely, every emitted row has its order. */
  lemma RowHasOrder(state: PortfolioState, targets: Weights, prices: map<Asset, real>, asset: Asset)
    requires Reconcile(state, targets, prices).Planned? && asset in PlanningSet(state, targets)
    ensures asset in prices && prices[asset] > 0.0
    ensures var plan := Reconcile(state, targets, prices);
      var row := RowOf(state, targets, prices, plan.portfolioValue, asset);
      Tradeable(row)
      && (row.action == SellIt ==> Order(Sell, asset, SoldQuantity(row)) in plan.orders)
      && (row.action == BuyIt ==> Order(Buy, asset, row.delta) in plan.orders)
  {
    hide Reconcile, Rows, SellOrders, BuyOrders, TotalFlow, PositiveWeights, PortfolioValue, PlanningSet, RowOf;
    PlanShape(state, targets, prices);
    var plan := Reconcile(state, targets, prices);
    var rows, assets := plan.plans, Sorted(PlanningSet(state, targets));
    assert asset in assets;
    var i :| 0 <= i < |assets| && assets[i] == asset;
    RowAt(state, targets, prices, plan.portfolioValue, assets, i);
    var row := rows[i];
    assert Tradeable(row) && row.asset == asset;
    if row.action == SellIt {
      SellOrdersMember(rows, Order(Sell, asset, SoldQuantity(row)));
    }
    if row.action == BuyIt {
      BuyOrdersMember(rows, Order(Buy, asset, row.delta));
    }
  }

  /** Each asset yields at most one order, sells come first, and no sell exceeds the held quantity. */
  lemma PlanOrdersSound(state: PortfolioState, targets: Weights, prices: map<Asset, real>)
    requires Reconcile(state, targets, prices).Planned?
    ensures OneOrderPerAsset(Reconcile(state, targets, prices).orders)
    ensures NoOversell(state.positions, Reconcile(state, targets, prices).orders)
  {
    hide Reconcile, Rows, SellOrders, BuyOrders, TotalFlow, PositiveWeights, PortfolioValue, PlanningSet, RowOf;
    PlanShape(state, targets, prices);
    var plan := Reconcile(state, targets, prices);
    var assets := Sorted(PlanningSet(state, targets));
    assert forall i :: 0 <= i < |plan.plans| ==> plan.plans[i].asset == assets[i];
    OrdersAscend(plan.plans);
    var sells, buys := SellOrders(plan.plans), BuyOrders(plan.plans);
    forall i, j | 0 <= i < j < |plan.orders| ensures plan.orders[i].asset != plan.orders[j].asset {
      if i < |sells| && j >= |sells| {
        var s, b := plan.orders[i], plan.orders[j];
        assert s in sells && b in buys;
        SellOrdersMember(plan.plans, s);
        BuyOrdersMember(plan.plans, b);
      }
    }
    forall o | o in plan.orders && o.side == Sell ensures o.quantity <= QuantityOf(state.positions, o.asset) {
      PlanOrder(state, targets, prices, o);
      RowCurrent(state, targets, prices, plan.portfolioValue, o.asset);
    }
  }

  lemma RowCurrent(state: PortfolioState, targets: Weights, prices: map<Asset, real>, pv: real, asset: Asset)
    requires asset in prices && prices[asset] > 0.0
    ensures RowOf(state, targets, prices, pv, asset).current == QuantityOf(state.positions, asset)
  {
  }

  /* ---- planned cash ---- */

  function DustRows(rows: seq<AssetPlan>): nat {
    if rows == [] then 0
    else DustRows(rows[..|rows| - 1]) + (if rows[|rows| - 1].action == Dust then 1 else 0)
  }

  /** What would be freed by moving the row exactly to its target. */
  function Gap(row: AssetPlan): real {
    Times(row.current, row.price) - row.targetNotional
  }

  function TotalGap(rows: seq<AssetPlan>): real {
    if rows == [] then 0.0 else TotalGap(rows[..|rows| - 1]) + Gap(rows[|rows| - 1])
  }

  lemma TimesSubtract(x: real, y: real, f: real)
    ensures Times(x - y, f) == Times(x, f) - Times(y, f) && Times(y - x, f) == Times(y, f) - Times(x, f)
  {
  }

  /** A row misses its gap only when it is dust, and then by at most the threshold. */
  lemma RowFlowNearGap(asset: Asset, price: real, current: real, weight: real, pv: real)
    requires price > 0.0 && current >= 0.0 && weight >= 0.0 && pv >= 0.0
    ensures var row := Row(asset, price, current, weight, pv);
      Abs(Flow(row) - Gap(row)) <= (if row.action == Dust then DustThreshold(pv) else 0.0)
  {
    var row := Row(asset, price, current, weight, pv);
    RowTradeable(asset, price, current, weight, pv);
    TimesSubtract(row.targetQuantity, current, price);
    assert Times(0.0, price) == 0.0;
    assert Times(row.targetQuantity, price) == row.targetNotional;
    assert Times(row.delta, price) == -Gap(row);
    assert Times(-row.delta, price) == Gap(row);
    if row.delta >= 0.0 {
      assert Times(Abs(row.delta), price) == -Gap(row);
    } else {
      assert Times(Abs(row.delta), price) == Gap(row);
    }
    TimesNonNegative(Abs(row.delta), price);
  }

  lemma {:induction false} FlowNearGap(rows: seq<AssetPlan>, threshold: real)
    requires forall i :: 0 <= i < |rows| ==>
      Abs(Flow(rows[i]) - Gap(rows[i])) <= (if rows[i].action == Dust then threshold else 0.0)
    ensures Abs(TotalFlow(rows) - TotalGap(rows)) <= Times(DustRows(rows) as real, threshold)
  {
    hide Flow, Gap;
    if rows == [] {
      assert Times(0.0, threshold) == 0.0;
    } else {
      var n := |rows| - 1;
      FlowNearGap(rows[..n], threshold);
      if rows[n].action == Dust {
        Distribute(DustRows(rows[..n]) as real, 1.0, threshold);
        assert Times(1.0, threshold) == threshold;
      }
    }
  }

  /** The total gap is what the holdings are worth less what the targets are worth. */
  lemma {:induction false} GapIsFold(state: PortfolioState, targets: Weights, prices: map<Asset, real>, pv: real, assets: seq<Asset>,
                                     worth: map<Asset, real>, wanted: map<Asset, real>)
    requires PricedAll(prices, assets)
    requires forall a :: a in assets ==> a in worth && worth[a] == Times(QuantityOf(state.positions, a), prices[a])
    requires forall a :: a in assets ==> a in wanted && wanted[a] == Times(QuantityOf(PositiveWeights(targets), a), pv)
    ensures TotalGap(Rows(state, targets, prices, pv, assets)) == SumKeys(worth, assets) - SumKeys(wanted, assets)
  {
    if assets != [] {
      var n := |assets| - 1;
      var last := assets[n];
      assert last in assets;
      assert forall a :: a in assets[..n] ==> a in assets;
      GapIsFold(state, targets, prices, pv, assets[..n], worth, wanted);
      RowAt(state, targets, prices, pv, assets, n);
      var row := RowOf(state, targets, prices, pv, last);
      assert Times(0.0, pv) == 0.0;
      assert row.targetNotional == wanted[last];
      assert Gap(row) == worth[last] - wanted[last];
      var rows := Rows(state, targets, prices, pv, assets);
      assert rows[..n] == Rows(state, targets, prices, pv, assets[..n]) && rows[n] == row;
    }
  }

  lemma TotalGapValue(state: PortfolioState, targets: Weights, prices: map<Asset, real>, pv: real)
    requires var assets := PlanningSet(state, targets); Priced(prices, assets) && state.positions.Keys <= prices.Keys
    requires PricedAll(prices, Sorted(PlanningSet(state, targets)))
    ensures TotalGap(Rows(state, targets, prices, pv, Sorted(PlanningSet(state, targets))))
         == Worth(state.positions, prices) - Times(SumMap(PositiveWeights(targets)), pv)
  {
    hide Times, TotalGap, Rows, SumMap, SumKeys, Row, RowOf;
    var set_ := PlanningSet(state, targets);
    var assets := Sorted(set_);
    var weights := PositiveWeights(targets);
    var worth := map a | a in set_ :: Times(QuantityOf(state.positions, a), prices[a]);
    var wanted := map a | a in set_ :: Times(QuantityOf(weights, a), pv);
    GapIsFold(state, targets, prices, pv, assets, worth, wanted);
    SumKeysIsSum(worth, assets);
    SumKeysIsSum(wanted, assets);
    TimesZero();
    SumOverPart(worth, Notionals(state.positions, prices));
    SumOverPart(wanted, Scaled(weights, pv));
    SumScale(weights, pv);
  }

  lemma TimesZero()
    ensures forall x :: Times(0.0, x) == 0.0
  {
  }

  /** Planned cash is exact up to one dust threshold for every row left as dust. */
  lemma PlannedCashNearTarget(state: PortfolioState, targets: Weights, prices: map<Asset, real>)
    requires Reconcile(state, targets, prices).Planned?
    ensures var plan := Reconcile(state, targets, prices);
      Abs(plan.projectedCash - plan.targetCash) <= Times(DustRows(plan.plans) as real, DustThreshold(plan.portfolioValue))
  {
    hide Reconcile, Rows, SellOrders, BuyOrders, TotalFlow, PlanningSet, SumMap, TotalGap, DustRows, Times,
      DustThreshold, Flow, Gap, Row, PositiveWeights;
    PlanShape(state, targets, prices);
    var plan := Reconcile(state, targets, prices);
    var pv := plan.portfolioValue;
    var assets := Sorted(PlanningSet(state, targets));
    forall i | 0 <= i < |plan.plans|
      ensures Abs(Flow(plan.plans[i]) - Gap(plan.plans[i])) <= (if plan.plans[i].action == Dust then DustThreshold(pv) else 0.0)
    {
      RowAt(state, targets, prices, pv, assets, i);
      var a := assets[i];
      assert a in assets;
      RowFlowNearGap(a, prices[a], QuantityOf(state.positions, a), QuantityOf(PositiveWeights(targets), a), pv);
    }
    FlowNearGap(plan.plans, DustThreshold(pv));
    TotalGapValue(state, targets, prices, pv);
    TargetCashSplit(SumMap(PositiveWeights(targets)), pv);
  }

  lemma TargetCashSplit(w: real, pv: real)
    ensures TargetCash(w, pv) == pv - Times(w, pv)
  {
  }
}
