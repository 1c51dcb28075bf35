/** Order planning: quantize/engine/reconcile.py. */
module Reconciliation {
  import opened Collections
  import opened Diagnostics
  import opened Market
  import opened Portfolio

  const DUST_RATIO: real := 0.000000001

  datatype Action = BuyIt | SellIt | Hold | Dust

  /** One explanation row: how an asset's delta was derived and what happened to it. */
  datatype AssetPlan = AssetPlan(asset: Asset, price: real, current: real, weight: real,
                                 targetNotional: real, targetQuantity: real, delta: real, action: Action)

  datatype Outcome =
    | Refused(diagnostics: Report)
    | Planned(orders: seq<Order>, portfolioValue: real, targetCash: real, projectedCash: real, plans: seq<AssetPlan>)

  /** Zero weights are dropped at ingestion. */
  function PositiveWeights(targets: Weights): (w: map<Asset, real>)
    ensures forall a :: a in w ==> w[a] > 0.0 && a in targets && w[a] == targets[a]
  {
    map a | a in targets && targets[a] > 0.0 :: targets[a]
  }

  /** Held or targeted. */
  function PlanningSet(state: PortfolioState, targets: Weights): set<Asset> {
    state.positions.Keys + PositiveWeights(targets).Keys
  }

  function Max(x: real, y: real): real { if x >= y then x else y }
  function Min(x: real, y: real): real { if x <= y then x else y }
  function Abs(x: real): real { if x >= 0.0 then x else -x }

  function DustThreshold(pv: real): real {
    Times(Max(pv, 1.0), DUST_RATIO)
  }

  function Quotient(x: real, p: real): (q: real)
    requires p > 0.0
    ensures Times(q, p) == x
  {
    x / p
  }

  function Row(asset: Asset, price: real, current: real, weight: real, pv: real): AssetPlan
    requires price > 0.0
  {
    var notional := if weight > 0.0 then Times(weight, pv) else 0.0;
    var target := if weight > 0.0 then Quotient(notional, price) else 0.0;
    var delta := target - current;
    var emit := (weight == 0.0 && current > 0.0) || Times(Abs(delta), price) > DustThreshold(pv);
    var action :=
      if delta > 0.0 && emit then BuyIt
      else if delta < 0.0 && emit then SellIt
      else if delta != 0.0 then Dust
      else Hold;
    AssetPlan(asset, price, current, weight, notional, target, delta, action)
  }

  /** The row of one asset of the planning set. */
  function RowOf(state: PortfolioState, targets: Weights, prices: map<Asset, real>, pv: real, asset: Asset): AssetPlan
    requires asset in prices && prices[asset] > 0.0
  {
    Row(asset, prices[asset], QuantityOf(state.positions, asset), QuantityOf(PositiveWeights(targets), asset), pv)
  }

  function SoldQuantity(row: AssetPlan): real {
    Min(-row.delta, row.current)
  }

  /** Cash moved at planning prices: in for sells, out for buys. */
  function Flow(row: AssetPlan): real {
    match row.action
    case BuyIt => -Times(row.delta, row.price)
    case SellIt => Times(SoldQuantity(row), row.price)
    case _ => 0.0
  }

  /** What the price check reports about one asset. */
  function PriceFault(prices: map<Asset, real>, asset: Asset): Report {
    if asset !in prices then multiset{Fault(MissingReconciliationPrice, asset)}
    else if prices[asset] <= 0.0 then multiset{Fault(InvalidReconciliationPrice, asset)}
    else multiset{}
  }

  function PriceFaults(prices: map<Asset, real>, assets: seq<Asset>): Report {
    if assets == [] then multiset{}
    else PriceFaults(prices, assets[..|assets| - 1]) + PriceFault(prices, assets[|assets| - 1])
  }

  ghost predicate Priced(prices: map<Asset, real>, assets: set<Asset>) {
    forall a :: a in assets ==> a in prices && prices[a] > 0.0
  }

  lemma {:induction false} PriceFaultsEmpty(prices: map<Asset, real>, assets: seq<Asset>)
    ensures PriceFaults(prices, assets) == multiset{} <==> forall a :: a in assets ==> a in prices && prices[a] > 0.0
  {
    if assets != [] {
      var n := |assets| - 1;
      var last := assets[n];
      PriceFaultsEmpty(prices, assets[..n]);
      assert forall a :: a in assets <==> a in assets[..n] || a == last;
      if PriceFaults(prices, assets) == multiset{} {
        assert PriceFaults(prices, assets[..n]) <= PriceFaults(prices, assets);
        assert PriceFault(prices, last) <= PriceFaults(prices, assets);
        assert PriceFault(prices, last) == multiset{};
      }
    }
  }

  function PortfolioValue(state: PortfolioState, prices: map<Asset, real>): real
    requires state.positions.Keys <= prices.Keys
  {
    state.cash + Worth(state.positions, prices)
  }

  function Rows(state: PortfolioState, targets: Weights, prices: map<Asset, real>, pv: real, assets: seq<Asset>): (r: seq<AssetPlan>)
    requires forall a :: a in assets ==> a in prices && prices[a] > 0.0
    ensures |r| == |assets| && forall i :: 0 <= i < |r| ==> r[i].asset == assets[i]
  {
    if assets == [] then []
    else
      var n := |assets| - 1;
      assert forall a :: a in assets[..n] ==> a in assets;
      var last := assets[n];
      Rows(state, targets, prices, pv, assets[..n]) + [RowOf(state, targets, prices, pv, last)]
  }

  /** What a row orders is a positive quantity, and no more than what is held. */
  ghost predicate Tradeable(row: AssetPlan) {
    && row.targetQuantity >= 0.0
    && (row.action == SellIt ==> 0.0 < SoldQuantity(row) <= row.current && SoldQuantity(row) == -row.delta)
    && (row.action == BuyIt ==> row.delta > 0.0)
  }

  ghost predicate AllTradeable(rows: seq<AssetPlan>) {
    forall i :: 0 <= i < |rows| ==> Tradeable(rows[i])
  }

  function SellOrders(rows: seq<AssetPlan>): (r: seq<Order>)
    requires AllTradeable(rows)
  {
    if rows == [] then []
    else
      var n := |rows| - 1;
      SellOrders(rows[..n])
      + (if rows[n].action == SellIt then [Order(Sell, rows[n].asset, SoldQuantity(rows[n]))] else [])
  }

  function BuyOrders(rows: seq<AssetPlan>): (r: seq<Order>)
    requires AllTradeable(rows)
  {
    if rows == [] then []
    else
      var n := |rows| - 1;
      BuyOrders(rows[..n]) + (if rows[n].action == BuyIt then [Order(Buy, rows[n].asset, rows[n].delta)] else [])
  }

  function TotalFlow(rows: seq<AssetPlan>): real {
    if rows == [] then 0.0 else TotalFlow(rows[..|rows| - 1]) + Flow(rows[|rows| - 1])
  }

  lemma RowTradeable(asset: Asset, price: real, current: real, weight: real, pv: real)
    requires price > 0.0 && current >= 0.0 && weight >= 0.0 && pv >= 0.0
    ensures Tradeable(Row(asset, price, current, weight, pv))
  {
    var row := Row(asset, price, current, weight, pv);
    if weight > 0.0 {
      TimesNonNegative(weight, pv);
      QuotientNonNegative(row.targetNotional, price);
    }
  }

  lemma QuotientNonNegative(x: real, p: real)
    requires x >= 0.0 && p > 0.0
    ensures Quotient(x, p) >= 0.0
  {
  }

  lemma {:induction false} RowsTradeable(state: PortfolioState, targets: Weights, prices: map<Asset, real>, pv: real, assets: seq<Asset>)
    requires forall a :: a in assets ==> a in prices && prices[a] > 0.0
    requires pv >= 0.0
    ensures AllTradeable(Rows(state, targets, prices, pv, assets))
  {
    if assets != [] {
      var n := |assets| - 1;
      var last := assets[n];
      assert forall a :: a in assets[..n] ==> a in assets;
      RowsTradeable(state, targets, prices, pv, assets[..n]);
      RowTradeable(last, prices[last], QuantityOf(state.positions, last), QuantityOf(PositiveWeights(targets), last), pv);
    }
  }

  lemma PortfolioValueNonNegative(state: PortfolioState, prices: map<Asset, real>, assets: set<Asset>)
    requires state.positions.Keys <= assets && Priced(prices, assets)
    ensures state.positions.Keys <= prices.Keys && PortfolioValue(state, prices) >= 0.0
  {
    forall a | a in state.positions ensures a in prices { assert a in assets; }
    var n := Notionals(state.positions, prices);
    forall a | a in n ensures n[a] >= 0.0 {
      assert a in assets;
      TimesNonNegative(state.positions[a], prices[a]);
    }
    SumNonNegative(n);
  }

  lemma PlanIsDefined(state: PortfolioState, targets: Weights, prices: map<Asset, real>)
    requires PriceFaults(prices, Sorted(PlanningSet(state, targets))) == multiset{}
    ensures Priced(prices, PlanningSet(state, targets))
    ensures state.positions.Keys <= prices.Keys && PortfolioValue(state, prices) >= 0.0
    ensures forall a :: a in Sorted(PlanningSet(state, targets)) ==> a in prices && prices[a] > 0.0
    ensures AllTradeable(Rows(state, targets, prices, PortfolioValue(state, prices), Sorted(PlanningSet(state, targets))))
  {
    var assets := Sorted(PlanningSet(state, targets));
    PriceFaultsEmpty(prices, assets);
    forall a | a in PlanningSet(state, targets) ensures a in prices && prices[a] > 0.0 { assert a in assets; }
    PortfolioValueNonNegative(state, prices, PlanningSet(state, targets));
    RowsTradeable(state, targets, prices, PortfolioValue(state, prices), assets);
  }

  /** The plan: refuse atomically on any missing or invalid price, otherwise one row per held or targeted asset. */
  function Reconcile(state: PortfolioState, targets: Weights, prices: map<Asset, real>): Outcome {
    var assets := Sorted(PlanningSet(state, targets));
    var faults := PriceFaults(prices, assets);
    if faults != multiset{} then Refused(faults)
    else
      PlanIsDefined(state, targets, prices);
      PlanAt(state, targets, PortfolioValue(state, prices), Rows(state, targets, prices, PortfolioValue(state, prices), assets))
  }

  /** The cash the targets leave uninvested. */
  function TargetCash(totalWeight: real, pv: real): real {
    Times(1.0 - totalWeight, pv)
  }

  function PlanAt(state: PortfolioState, targets: Weights, pv: real, rows: seq<AssetPlan>): Outcome
    requires AllTradeable(rows)
  {
    Planned(SellOrders(rows) + BuyOrders(rows), pv,
            TargetCash(SumMap(PositiveWeights(targets)), pv), state.cash + TotalFlow(rows), rows)
  }

  /* ---- the loops of `reconcile` ---- */

  /** Lines 83-102: every asset is checked before any arithmetic. */
  method CheckPrices(prices: map<Asset, real>, assets: seq<Asset>) returns (faults: Report)
    ensures faults == PriceFaults(prices, assets)
  {
    faults := multiset{};
    for i := 0 to |assets|
      invariant faults == PriceFaults(prices, assets[..i])
    {
      var asset := assets[i];
      if asset !in prices {
        faults := faults + multiset{Fault(MissingReconciliationPrice, asset)};
      } else if !(prices[asset] > 0.0) {
        faults := faults + multiset{Fault(InvalidReconciliationPrice, asset)};
      }
      assert assets[..i + 1][..i] == assets[..i];
    }
    assert assets[..|assets|] == assets;
  }

  lemma EmptyFold(m: map<int, real>, none: seq<int>)
    requires none == []
    ensures SumKeys(m, none) == 0.0
  {
  }

  /** Lines 115-117: the fold over held assets seeded with cash. */
  method ValueHoldings(state: PortfolioState, prices: map<Asset, real>) returns (value: real)
    requires state.positions.Keys <= prices.Keys
    ensures value == PortfolioValue(state, prices)
  {
    hide SumMap, SumKeys, Times;
    var held := Sorted(state.positions.Keys);
    ghost var notionals := Notionals(state.positions, prices);
    value := state.cash;
    EmptyFold(notionals, held[..0]);
    for i := 0 to |held|
      invariant value == state.cash + SumKeys(notionals, held[..i])
    {
      var asset := held[i];
      assert asset in state.positions.Keys;
      value := value + Times(state.positions[asset], prices[asset]);
      SumKeysSnoc(notionals, held, i);
    }
    assert held[..|held|] == held;
    SumKeysIsSum(notionals, held);
  }

  lemma NoRows(state: PortfolioState, targets: Weights, prices: map<Asset, real>, pv: real, none: seq<Asset>)
    requires none == []
    ensures Rows(state, targets, prices, pv, none) == [] && SellOrders([]) == [] && BuyOrders([]) == [] && TotalFlow([]) == 0.0
  {
  }

  lemma RowsSnoc(state: PortfolioState, targets: Weights, prices: map<Asset, real>, pv: real, assets: seq<Asset>, i: nat)
    requires forall a :: a in assets ==> a in prices && prices[a] > 0.0
    requires i < |assets|
    ensures Rows(state, targets, prices, pv, assets[..i + 1])
         == Rows(state, targets, prices, pv, assets[..i]) + [RowOf(state, targets, prices, pv, assets[i])]
  {
    assert assets[..i + 1][..i] == assets[..i];
  }

  lemma OrdersSnoc(rows: seq<AssetPlan>, row: AssetPlan)
    requires AllTradeable(rows) && Tradeable(row)
    ensures AllTradeable(rows + [row])
    ensures SellOrders(rows + [row])
         == SellOrders(rows) + (if row.action == SellIt then [Order(Sell, row.asset, SoldQuantity(row))] else [])
    ensures BuyOrders(rows + [row]) == BuyOrders(rows) + (if row.action == BuyIt then [Order(Buy, row.asset, row.delta)] else [])
    ensures TotalFlow(rows + [row]) == TotalFlow(rows) + Flow(row)
  {
    assert (rows + [row])[..|rows|] == rows;
  }

  /** Lines 119-167: one row, and at most one order, per asset. */
  method PlanRows(state: PortfolioState, targets: Weights, prices: map<Asset, real>, pv: real, assets: seq<Asset>)
    returns (sells: seq<Order>, buys: seq<Order>, emittedCashFlow: real, plans: seq<AssetPlan>)
    requires forall a :: a in assets ==> a in prices && prices[a] > 0.0
    requires pv >= 0.0
    ensures AllTradeable(plans) && plans == Rows(state, targets, prices, pv, assets)
    ensures sells == SellOrders(plans) && buys == BuyOrders(plans) && emittedCashFlow == TotalFlow(plans)
  {
    hide Rows, SellOrders, BuyOrders, TotalFlow;
    var weights := PositiveWeights(targets);
    var dustThreshold := Times(Max(pv, 1.0), DUST_RATIO);
    sells, buys, plans, emittedCashFlow := [], [], [], 0.0;
    NoRows(state, targets, prices, pv, assets[..0]);
    for i := 0 to |assets|
      invariant AllTradeable(plans) && plans == Rows(state, targets, prices, pv, assets[..i])
      invariant sells == SellOrders(plans) && buys == BuyOrders(plans)
      invariant emittedCashFlow == TotalFlow(plans)
    {
      var asset := assets[i];
      assert asset in assets;
      var price := prices[asset];
      var current := QuantityOf(state.positions, asset);
      var weight := QuantityOf(weights, asset);
      var targetNotional, targetQuantity := 0.0, 0.0;
      if weight > 0.0 {
        targetNotional := Times(weight, pv);
        targetQuantity := Quotient(targetNotional, price);
      }
      var delta := targetQuantity - current;
      var liquidation := weight == 0.0 && current > 0.0;
      var emit := liquidation || Times(Abs(delta), price) > dustThreshold;
      RowTradeable(asset, price, current, weight, pv);
      var action;
      if delta > 0.0 && emit {
        action := BuyIt;
        buys := buys + [Order(Buy, asset, delta)];
        emittedCashFlow := emittedCashFlow - Times(delta, price);
      } else if delta < 0.0 && emit {
        action := SellIt;
        assert Row(asset, price, current, weight, pv).action == SellIt;
        var quantity := Min(-delta, current);
        sells := sells + [Order(Sell, asset, quantity)];
        emittedCashFlow := emittedCashFlow + Times(quantity, price);
      } else if delta != 0.0 {
        action := Dust;
      } else {
        action := Hold;
      }
      var row := AssetPlan(asset, price, current, weight, targetNotional, targetQuantity, delta, action);
      RowsSnoc(state, targets, prices, pv, assets, i);
      OrdersSnoc(plans, row);
      plans := plans + [row];
    }
    assert assets[..|assets|] == assets;
  }

  /** `reconcile` computes exactly the plan. */
  method ReconcileOrders(state: PortfolioState, targets: Weights, prices: map<Asset, real>) returns (r: Outcome)
    ensures r == Reconcile(state, targets, prices)
  {
    hide Rows, SellOrders, BuyOrders, TotalFlow, PriceFaults, SumMap, AllTradeable, TargetCash, PositiveWeights,
      PortfolioValue, PlanningSet;
    var weights := PositiveWeights(targets);
    var assets := Sorted(PlanningSet(state, targets));
    var faults := CheckPrices(prices, assets);
    if faults != multiset{} {
      return Refused(faults);
    }
    PlanIsDefined(state, targets, prices);
    var pv := ValueHoldings(state, prices);
    var sells, buys, emittedCashFlow, plans := PlanRows(state, targets, prices, pv, assets);
    var totalWeight := SumMap(weights);
    r := Planned(sells + buys, pv, TargetCash(totalWeight, pv), state.cash + emittedCashFlow, plans);
  }
}
