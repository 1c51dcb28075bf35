/** Deterministic fill application against the cash floor: quantize/engine/fills.py. */
module Fills {
  import opened Collections
  import opened Cursor
  import opened Diagnostics
  import opened Market
  import opened Portfolio

  const OVERSELL_TOLERANCE: real := 0.000000001
  const BPS: real := 10000.0

  /** The supported cost range: a factor of one or more would make sells pay out nothing. */
  predicate CostsSupported(bps: real) { 0.0 <= bps < BPS }

  /* ---- validation: everything is checked against the starting state ---- */

  function SameKey(a: Order, b: Order): bool { a.side == b.side && a.asset == b.asset }

  predicate KeyIn(o: Order, orders: seq<Order>) {
    exists i :: 0 <= i < |orders| && SameKey(orders[i], o)
  }

  /** What validation reports about one order by itself. */
  function OwnFaults(state: PortfolioState, view: DataView, date: Date, o: Order): Report {
    (if view.OpenPrice(o.asset, date).None? then multiset{Fault(MissingOpenPrice, o.asset)} else multiset{})
    + (if o.side == Sell && o.quantity > QuantityOf(state.positions, o.asset) + OVERSELL_TOLERANCE
       then multiset{Fault(InvalidOrder, o.asset)} else multiset{})
  }

  function DuplicateFault(o: Order, earlier: seq<Order>): Report {
    if KeyIn(o, earlier) then multiset{Fault(InvalidOrder, o.asset)} else multiset{}
  }

  function OrderFaults(state: PortfolioState, view: DataView, date: Date, orders: seq<Order>): Report {
    if orders == [] then multiset{}
    else
      var n := |orders| - 1;
      OrderFaults(state, view, date, orders[..n]) + DuplicateFault(orders[n], orders[..n])
      + OwnFaults(state, view, date, orders[n])
  }

  ghost predicate UniqueKeys(orders: seq<Order>) {
    forall i, j :: 0 <= i < j < |orders| ==> !SameKey(orders[i], orders[j])
  }

  /* ---- application ---- */

  datatype Ledger = Ledger(cash: real, positions: map<Asset, real>, fills: seq<Fill>)

  ghost predicate LedgerOk(l: Ledger) {
    l.cash >= 0.0 && forall a :: a in l.positions ==> l.positions[a] > 0.0
  }

  /** One sell: proceeds net of costs; a position sold out disappears. */
  function SellOne(l: Ledger, asset: Asset, wanted: real, price: real, factor: real): Ledger {
    var held := QuantityOf(l.positions, asset);
    var quantity := if wanted <= held then wanted else held;
    var gross := Times(quantity, price);
    var cost := Times(gross, factor);
    var delta := gross - cost;
    var remaining := held - quantity;
    Ledger(l.cash + delta,
           if remaining <= 0.0 || quantity == held then l.positions - {asset} else l.positions[asset := remaining],
           l.fills + [Fill(Sell, asset, quantity, price, cost, delta, false)])
  }

  function UnitCost(price: real, factor: real): real { Times(price, 1.0 + factor) }

  /** How much of a buy the remaining cash affords. */
  function Affordable(cash: real, wanted: real, unit: real): real
    requires unit > 0.0
  {
    if Times(wanted, unit) <= cash then wanted else (if cash >= 0.0 then cash else 0.0) / unit
  }

  /** One buy, scaled down to the cash floor if need be; even a zero buy is recorded. */
  function BuyOne(l: Ledger, asset: Asset, wanted: real, price: real, factor: real): Ledger
    requires UnitCost(price, factor) > 0.0
  {
    var unit := UnitCost(price, factor);
    var quantity := Affordable(l.cash, wanted, unit);
    var spend := Times(quantity, unit);
    var cost := Times(Times(quantity, price), factor);
    Ledger(l.cash - spend,
           if quantity > 0.0 then l.positions[asset := QuantityOf(l.positions, asset) + quantity] else l.positions,
           l.fills + [Fill(Buy, asset, quantity, price, cost, -spend, !(Times(wanted, unit) <= l.cash))])
  }

  /** One side of the order list by asset. */
  function SideMap(orders: seq<Order>, side: Side): (m: map<Asset, real>)
    ensures forall a :: a in m ==> m[a] > 0.0
    ensures forall a :: a in m ==> Order(side, a, m[a]) in orders
    ensures forall o :: o in orders && o.side == side ==> o.asset in m
  {
    if orders == [] then map[]
    else
      var o := orders[|orders| - 1];
      var rest := SideMap(orders[..|orders| - 1], side);
      assert forall x :: x in orders <==> x in orders[..|orders| - 1] || x == o;
      if o.side == side then rest[o.asset := o.quantity] else rest
  }

  function SellAll(l: Ledger, names: seq<Asset>, wanted: map<Asset, real>, prices: map<Asset, real>, factor: real): Ledger
    requires forall a :: a in names ==> a in wanted && a in prices
  {
    if names == [] then l
    else
      var n := |names| - 1;
      var a := names[n];
      SellOne(SellAll(l, names[..n], wanted, prices, factor), a, wanted[a], prices[a], factor)
  }

  ghost predicate BuyPrices(names: seq<Asset>, wanted: map<Asset, real>, prices: map<Asset, real>) {
    forall a :: a in names ==> a in wanted && a in prices && prices[a] > 0.0
  }

  function BuyAll(l: Ledger, names: seq<Asset>, wanted: map<Asset, real>, prices: map<Asset, real>, factor: real): Ledger
    requires BuyPrices(names, wanted, prices) && factor >= 0.0
  {
    if names == [] then l
    else
      var n := |names| - 1;
      var a := names[n];
      UnitCostPositive(prices[a], factor);
      BuyOne(BuyAll(l, names[..n], wanted, prices, factor), a, wanted[a], prices[a], factor)
  }

  lemma UnitCostPositive(price: real, factor: real)
    requires price > 0.0 && factor >= 0.0
    ensures UnitCost(price, factor) > 0.0
  {
  }

  /** The opens of the ordered assets. */
  function OpensFor(view: DataView, date: Date, orders: seq<Order>): (m: map<Asset, real>)
    ensures forall o :: o in orders && view.OpenPrice(o.asset, date).Some? ==> o.asset in m
    ensures forall a :: a in m ==> view.OpenPrice(a, date) == Some(m[a])
  {
    if orders == [] then map[]
    else
      var o := orders[|orders| - 1];
      var rest := OpensFor(view, date, orders[..|orders| - 1]);
      assert forall x :: x in orders <==> x in orders[..|orders| - 1] || x == o;
      match view.OpenPrice(o.asset, date)
      case Some(p) => rest[o.asset := p]
      case None => rest
  }

  /** Opens shown by a view are positive: the dataset contract. */
  ghost predicate PositiveOpens(view: DataView) {
    forall a, d :: view.OpenPrice(a, d).Some? ==> view.OpenPrice(a, d).value > 0.0
  }

  datatype FillResult =
    | Rejected(diagnostics: Report)
    | Applied(state: PortfolioState, fills: seq<Fill>)

  ghost predicate Clean(state: PortfolioState, view: DataView, date: Date, orders: seq<Order>) {
    UniqueKeys(orders) && forall i :: 0 <= i < |orders| ==> OwnFaults(state, view, date, orders[i]) == multiset{}
  }

  lemma NoFaults(a: Report, b: Report, c: Report)
    ensures a + b + c == multiset{} <==> a == multiset{} && b == multiset{} && c == multiset{}
  {
    assert |a + b + c| == |a| + |b| + |c|;
  }

  lemma UniqueSnoc(orders: seq<Order>, n: nat)
    requires |orders| == n + 1
    ensures UniqueKeys(orders) <==> UniqueKeys(orders[..n]) && !KeyIn(orders[n], orders[..n])
  {
    assert forall i :: 0 <= i < n ==> orders[..n][i] == orders[i];
    if UniqueKeys(orders[..n]) && !KeyIn(orders[n], orders[..n]) {
      forall i, j | 0 <= i < j < |orders| ensures !SameKey(orders[i], orders[j]) {
        if j < n {
          assert !SameKey(orders[..n][i], orders[..n][j]);
        } else {
          assert !SameKey(orders[..n][i], orders[n]);
        }
      }
    }
  }

  lemma CleanSnoc(state: PortfolioState, view: DataView, date: Date, orders: seq<Order>, n: nat)
    requires |orders| == n + 1
    ensures Clean(state, view, date, orders)
      <==> Clean(state, view, date, orders[..n]) && DuplicateFault(orders[n], orders[..n]) == multiset{}
           && OwnFaults(state, view, date, orders[n]) == multiset{}
  {
    hide OwnFaults, SameKey, UniqueKeys, KeyIn;
    UniqueSnoc(orders, n);
    assert forall i :: 0 <= i < n ==> orders[..n][i] == orders[i];
  }

  lemma {:induction false} OrderFaultsNone(state: PortfolioState, view: DataView, date: Date, orders: seq<Order>)
    ensures OrderFaults(state, view, date, orders) == multiset{} <==> Clean(state, view, date, orders)
  {
    hide OwnFaults, SameKey, UniqueKeys, KeyIn, DuplicateFault;
    if orders == [] {
      NoKeysClash();
    } else {
      var n := |orders| - 1;
      OrderFaultsNone(state, view, date, orders[..n]);
      NoFaults(OrderFaults(state, view, date, orders[..n]), DuplicateFault(orders[n], orders[..n]),
               OwnFaults(state, view, date, orders[n]));
      CleanSnoc(state, view, date, orders, n);
    }
  }

  lemma NoKeysClash()
    ensures UniqueKeys([])
  {
  }

  /** All orders are checked before any arithmetic; then sells, then buys, each in asset order. */
  function ApplyOrders(state: PortfolioState, orders: seq<Order>, view: DataView, date: Date, bps: real): FillResult
    requires PositiveOpens(view)
  {
    if !CostsSupported(bps) then Rejected(multiset{Fault(InvalidTransactionCosts, 0)})
    else
      var faults := OrderFaults(state, view, date, orders);
      if faults != multiset{} then Rejected(faults)
      else
        FillsAreDefined(state, orders, view, date);
        Settle(state, orders, OpensFor(view, date, orders), CostFactor(bps))
  }

  function CostFactor(bps: real): (f: real)
    requires CostsSupported(bps)
    ensures 0.0 <= f < 1.0
  {
    bps / BPS
  }

  function Settle(state: PortfolioState, orders: seq<Order>, prices: map<Asset, real>, factor: real): FillResult
    requires OrdersPriced(orders, prices) && 0.0 <= factor < 1.0
  {
    FilledIsSettled(state, orders, prices, factor);
    var l := Filled(state, orders, prices, factor);
    Applied(Holdings(l.cash, l.positions), l.fills)
  }

  ghost predicate OrdersPriced(orders: seq<Order>, prices: map<Asset, real>) {
    forall o :: o in orders ==> o.asset in prices && prices[o.asset] > 0.0
  }

  lemma FillsAreDefined(state: PortfolioState, orders: seq<Order>, view: DataView, date: Date)
    requires PositiveOpens(view) && OrderFaults(state, view, date, orders) == multiset{}
    ensures OrdersPriced(orders, OpensFor(view, date, orders)) && UniqueKeys(orders)
    ensures forall o :: o in orders && o.side == Sell ==>
      o.quantity <= QuantityOf(state.positions, o.asset) + OVERSELL_TOLERANCE
  {
    OrderFaultsNone(state, view, date, orders);
    forall o | o in orders
      ensures view.OpenPrice(o.asset, date).Some?
        && (o.side == Sell ==> o.quantity <= QuantityOf(state.positions, o.asset) + OVERSELL_TOLERANCE)
    {
      var i :| 0 <= i < |orders| && orders[i] == o;
      var own := OwnFaults(state, view, date, orders[i]);
      assert own == multiset{};
      assert Fault(MissingOpenPrice, o.asset) !in own && Fault(InvalidOrder, o.asset) !in own;
    }
  }

  /** The ledger after all sells and then all buys. */
  function Filled(state: PortfolioState, orders: seq<Order>, prices: map<Asset, real>, factor: real): Ledger
    requires OrdersPriced(orders, prices) && factor >= 0.0
  {
    var sells, buys := SideMap(orders, Sell), SideMap(orders, Buy);
    SidesPriced(orders, prices);
    BuyAll(SellAll(Ledger(state.cash, state.positions, []), Sorted(sells.Keys), sells, prices, factor),
           Sorted(buys.Keys), buys, prices, factor)
  }

  lemma SidesPriced(orders: seq<Order>, prices: map<Asset, real>)
    requires OrdersPriced(orders, prices)
    ensures BuyPrices(Sorted(SideMap(orders, Sell).Keys), SideMap(orders, Sell), prices)
    ensures BuyPrices(Sorted(SideMap(orders, Buy).Keys), SideMap(orders, Buy), prices)
  {
  }

  lemma SellStep(l: Ledger, asset: Asset, wanted: real, price: real, factor: real)
    requires LedgerOk(l) && wanted > 0.0 && price > 0.0 && 0.0 <= factor < 1.0
    ensures LedgerOk(SellOne(l, asset, wanted, price, factor))
    ensures SellOne(l, asset, wanted, price, factor).cash >= l.cash
  {
    var held := QuantityOf(l.positions, asset);
    var quantity := if wanted <= held then wanted else held;
    TimesNonNegative(quantity, price);
    CostBelowGross(Times(quantity, price), factor);
  }

  lemma CostBelowGross(gross: real, factor: real)
    requires gross >= 0.0 && 0.0 <= factor < 1.0
    ensures 0.0 <= Times(gross, factor) <= gross
  {
    TimesNonNegative(gross, factor);
    TimesNonNegative(gross, 1.0 - factor);
    assert Times(gross, 1.0 - factor) == gross - Times(gross, factor);
  }

  lemma QuotientBelow(cash: real, wanted: real, unit: real)
    requires cash >= 0.0 && unit > 0.0 && cash < Times(wanted, unit)
    ensures 0.0 <= cash / unit < wanted && Times(cash / unit, unit) == cash
  {
    var q := cash / unit;
    assert q * unit == cash;
    assert (wanted - q) * unit > 0.0;
  }

  lemma AffordableFits(cash: real, wanted: real, unit: real)
    requires cash >= 0.0 && wanted > 0.0 && unit > 0.0
    ensures 0.0 <= Affordable(cash, wanted, unit) <= wanted
    ensures Times(Affordable(cash, wanted, unit), unit) <= cash
    ensures Times(wanted, unit) <= cash ==> Affordable(cash, wanted, unit) == wanted
    ensures !(Times(wanted, unit) <= cash) ==>
      Times(Affordable(cash, wanted, unit), unit) == cash && Affordable(cash, wanted, unit) < wanted
  {
    if !(Times(wanted, unit) <= cash) {
      QuotientBelow(cash, wanted, unit);
    }
  }

  /** A buy never takes cash below zero. */
  lemma BuyStep(l: Ledger, asset: Asset, wanted: real, price: real, factor: real)
    requires LedgerOk(l) && wanted > 0.0 && price > 0.0 && 0.0 <= factor
    ensures UnitCost(price, factor) > 0.0
    ensures LedgerOk(BuyOne(l, asset, wanted, price, factor))
  {
    hide Times, Affordable, UnitCost;
    UnitCostPositive(price, factor);
    AffordableFits(l.cash, wanted, UnitCost(price, factor));
  }

  lemma {:induction false} SellAllOk(l: Ledger, names: seq<Asset>, wanted: map<Asset, real>, prices: map<Asset, real>, factor: real)
    requires BuyPrices(names, wanted, prices) && 0.0 <= factor < 1.0
    requires LedgerOk(l) && forall a :: a in names ==> wanted[a] > 0.0
    ensures LedgerOk(SellAll(l, names, wanted, prices, factor))
  {
    hide SellOne;
    if names != [] {
      var n := |names| - 1;
      var a := names[n];
      assert a in names;
      SellAllOk(l, names[..n], wanted, prices, factor);
      SellStep(SellAll(l, names[..n], wanted, prices, factor), a, wanted[a], prices[a], factor);
    }
  }

  lemma {:induction false} BuyAllOk(l: Ledger, names: seq<Asset>, wanted: map<Asset, real>, prices: map<Asset, real>, factor: real)
    requires BuyPrices(names, wanted, prices) && 0.0 <= factor
    requires LedgerOk(l) && forall a :: a in names ==> wanted[a] > 0.0
    ensures LedgerOk(BuyAll(l, names, wanted, prices, factor))
  {
    hide BuyOne, UnitCost;
    if names != [] {
      var n := |names| - 1;
      var a := names[n];
      assert a in names;
      BuyAllOk(l, names[..n], wanted, prices, factor);
      BuyStep(BuyAll(l, names[..n], wanted, prices, factor), a, wanted[a], prices[a], factor);
    }
  }

  lemma FilledIsSettled(state: PortfolioState, orders: seq<Order>, prices: map<Asset, real>, factor: real)
    requires OrdersPriced(orders, prices) && 0.0 <= factor < 1.0
    ensures LedgerOk(Filled(state, orders, prices, factor))
  {
    var sells, buys := SideMap(orders, Sell), SideMap(orders, Buy);
    SidesPriced(orders, prices);
    var l := Ledger(state.cash, state.positions, []);
    SellAllOk(l, Sorted(sells.Keys), sells, prices, factor);
    BuyAllOk(SellAll(l, Sorted(sells.Keys), sells, prices, factor), Sorted(buys.Keys), buys, prices, factor);
  }
}

/** The loops of `apply_orders`, reading opens through the run's cursor. */
module FillLoops {
  import opened Collections
  import opened Cursor
  import opened Diagnostics
  import opened Fills
  import opened Market
  import opened Portfolio

  /** The dataset contract makes every visible open positive. */
  lemma AsOfOpensPositive(d: DataSet, t: Instant)
    ensures PositiveOpens(AsOf(d, t))
  {
    var view := AsOf(d, t);
    forall a, day | view.OpenPrice(a, day).Some? ensures view.OpenPrice(a, day).value > 0.0 {
      var history := view.opens[a];
      var v := view.OpenPrice(a, day).value;
      var i :| 0 <= i < |history| && history[i] == Point(day, v);
      VisibleOpensMember(d.observations[a], t, history[i]);
      assert SeriesOk(d.calendar, d.observations[a]);
    }
  }

  function KeysOf(orders: seq<Order>): set<(Side, Asset)> {
    set o | o in orders :: (o.side, o.asset)
  }

  lemma KeySeen(orders: seq<Order>, o: Order)
    ensures (o.side, o.asset) in KeysOf(orders) <==> KeyIn(o, orders)
  {
    if (o.side, o.asset) in KeysOf(orders) {
      var x :| x in orders && (x.side, x.asset) == (o.side, o.asset);
      var i :| 0 <= i < |orders| && orders[i] == x;
      assert SameKey(orders[i], o);
    }
    if KeyIn(o, orders) {
      var i :| 0 <= i < |orders| && SameKey(orders[i], o);
      var x := orders[i];
      assert x in orders && (x.side, x.asset) == (o.side, o.asset);
    }
  }

  lemma NothingValidated(state: PortfolioState, view: DataView, date: Date, none: seq<Order>)
    requires none == []
    ensures OrderFaults(state, view, date, none) == multiset{} && OpensFor(view, date, none) == map[] && KeysOf(none) == {}
  {
  }

  lemma FaultsSnoc(state: PortfolioState, view: DataView, date: Date, orders: seq<Order>, k: nat)
    requires k < |orders|
    ensures OrderFaults(state, view, date, orders[..k + 1])
         == OrderFaults(state, view, date, orders[..k]) + DuplicateFault(orders[k], orders[..k])
            + OwnFaults(state, view, date, orders[k])
  {
    hide OwnFaults, DuplicateFault;
    assert orders[..k + 1][..k] == orders[..k];
  }

  lemma OpensSnoc(view: DataView, date: Date, orders: seq<Order>, k: nat)
    requires k < |orders|
    ensures OpensFor(view, date, orders[..k + 1])
         == match view.OpenPrice(orders[k].asset, date)
            case Some(p) => OpensFor(view, date, orders[..k])[orders[k].asset := p]
            case None => OpensFor(view, date, orders[..k])
  {
    assert orders[..k + 1][..k] == orders[..k];
  }

  lemma KeysSnoc(orders: seq<Order>, k: nat)
    requires k < |orders|
    ensures KeysOf(orders[..k + 1]) == KeysOf(orders[..k]) + {(orders[k].side, orders[k].asset)}
  {
    assert orders[..k + 1] == orders[..k] + [orders[k]];
  }

  /** One order by itself: its price and, for a sell, the holding. */
  method CheckOrder(state: PortfolioState, order: Order, price: Option<real>, ghost view: DataView, ghost date: Date) returns (faults: Report)
    requires price == view.OpenPrice(order.asset, date)
    ensures faults == OwnFaults(state, view, date, order)
  {
    hide DataView.OpenPrice;
    faults := multiset{};
    if price.None? {
      faults := faults + multiset{Fault(MissingOpenPrice, order.asset)};
    }
    if order.side == Sell {
      var held := QuantityOf(state.positions, order.asset);
      if order.quantity > held + OVERSELL_TOLERANCE {
        faults := faults + multiset{Fault(InvalidOrder, order.asset)};
      }
    }
  }

  /** Lines 82-116: prices, duplicates and oversell, before any arithmetic. */
  method Validate(state: PortfolioState, orders: seq<Order>, cursor: MarketDataCursor, date: Date, instant: Instant)
    returns (faults: Report, prices: map<Asset, real>)
    requires cursor.Valid()
    modifies cursor
    ensures cursor.Valid()
    ensures faults == OrderFaults(state, AsOf(cursor.dataset, instant), date, orders)
    ensures prices == OpensFor(AsOf(cursor.dataset, instant), date, orders)
  {
    hide MarketDataCursor.Valid, OrderFaults, OpensFor, AsOf, KeysOf, KeyIn, DataView.OpenPrice, OwnFaults;
    ghost var view := AsOf(cursor.dataset, instant);
    faults, prices := multiset{}, map[];
    NothingValidated(state, view, date, orders[..0]);
    var seen: set<(Side, Asset)> := {};
    for k := 0 to |orders|
      invariant cursor.Valid()
      invariant faults == OrderFaults(state, view, date, orders[..k])
      invariant prices == OpensFor(view, date, orders[..k])
      invariant seen == KeysOf(orders[..k])
    {
      var order := orders[k];
      var key := (order.side, order.asset);
      KeySeen(orders[..k], order);
      FaultsSnoc(state, view, date, orders, k);
      OpensSnoc(view, date, orders, k);
      KeysSnoc(orders, k);
      ghost var before := faults;
      if key in seen {
        faults := faults + multiset{Fault(InvalidOrder, order.asset)};
      }
      assert faults == before + DuplicateFault(order, orders[..k]);
      seen := seen + {key};
      var price := cursor.OpenPrice(order.asset, date, instant);
      if price.Some? {
        prices := prices[order.asset := price.value];
      }
      var own := CheckOrder(state, order, price, view, date);
      faults := faults + own;
    }
    assert orders[..|orders|] == orders;
  }

  /** Lines 124-146. */
  method SellLoop(start: Ledger, names: seq<Asset>, wanted: map<Asset, real>, prices: map<Asset, real>, factor: real)
    returns (l: Ledger)
    requires BuyPrices(names, wanted, prices)
    ensures l == SellAll(start, names, wanted, prices, factor)
  {
    var cash, positions, fills := start.cash, start.positions, start.fills;
    for k := 0 to |names|
      invariant Ledger(cash, positions, fills) == SellAll(start, names[..k], wanted, prices, factor)
    {
      var asset := names[k];
      assert asset in names;
      var price := prices[asset];
      var held := QuantityOf(positions, asset);
      var quantity := if wanted[asset] <= held then wanted[asset] else held;
      var gross := Times(quantity, price);
      var cost := Times(gross, factor);
      var delta := gross - cost;
      cash := cash + delta;
      var remaining := held - quantity;
      if remaining <= 0.0 || quantity == held {
        positions := positions - {asset};
      } else {
        positions := positions[asset := remaining];
      }
      fills := fills + [Fill(Sell, asset, quantity, price, cost, delta, false)];
      assert names[..k + 1][..k] == names[..k];
    }
    assert names[..|names|] == names;
    return Ledger(cash, positions, fills);
  }

  /** Lines 148-180: the branch that would raise on negative cash is never entered. */
  method BuyLoop(start: Ledger, names: seq<Asset>, wanted: map<Asset, real>, prices: map<Asset, real>, factor: real)
    returns (l: Ledger)
    requires BuyPrices(names, wanted, prices) && factor >= 0.0
    requires LedgerOk(start) && forall a :: a in names ==> wanted[a] > 0.0
    ensures l == BuyAll(start, names, wanted, prices, factor)
  {
    hide Times;
    var cash, positions, fills := start.cash, start.positions, start.fills;
    for k := 0 to |names|
      invariant Ledger(cash, positions, fills) == BuyAll(start, names[..k], wanted, prices, factor)
      invariant LedgerOk(Ledger(cash, positions, fills))
    {
      var asset := names[k];
      assert asset in names;
      var price := prices[asset];
      BuyStep(Ledger(cash, positions, fills), asset, wanted[asset], price, factor);
      var unitCost := UnitCost(price, factor);
      AffordableFits(cash, wanted[asset], unitCost);
      var fullCost := Times(wanted[asset], unitCost);
      var quantity, scaled := wanted[asset], false;
      if !(fullCost <= cash) {
        quantity := (if cash >= 0.0 then cash else 0.0) / unitCost;
        scaled := true;
      }
      var spend := Times(quantity, unitCost);
      var cost := Times(Times(quantity, price), factor);
      cash := cash - spend;
      if cash < 0.0 {
        assert false;
      }
      if quantity > 0.0 {
        positions := positions[asset := QuantityOf(positions, asset) + quantity];
      }
      fills := fills + [Fill(Buy, asset, quantity, price, cost, -spend, scaled)];
      assert names[..k + 1][..k] == names[..k];
    }
    assert names[..|names|] == names;
    return Ledger(cash, positions, fills);
  }

  /** `apply_orders` computes exactly the fill specification of the as-of view at the open. */
  method ApplyOrdersAtOpen(state: PortfolioState, orders: seq<Order>, cursor: MarketDataCursor, date: Date, instant: Instant, bps: real)
    returns (r: FillResult)
    requires cursor.Valid()
    modifies cursor
    ensures cursor.Valid()
    ensures PositiveOpens(AsOf(cursor.dataset, instant))
    ensures r == ApplyOrders(state, orders, AsOf(cursor.dataset, instant), date, bps)
  {
    hide MarketDataCursor.Valid, OrderFaults, OpensFor, AsOf, PositiveOpens, SellAll, BuyAll, OrdersPriced, BuyPrices, UniqueKeys;
    AsOfOpensPositive(cursor.dataset, instant);
    if !CostsSupported(bps) {
      return Rejected(multiset{Fault(InvalidTransactionCosts, 0)});
    }
    var faults, prices := Validate(state, orders, cursor, date, instant);
    if faults != multiset{} {
      return Rejected(faults);
    }
    FillsAreDefined(state, orders, AsOf(cursor.dataset, instant), date);
    var factor := CostFactor(bps);
    SidesPriced(orders, prices);
    var sells, buys := SideMap(orders, Sell), SideMap(orders, Buy);
    var start := Ledger(state.cash, state.positions, []);
    SellAllOk(start, Sorted(sells.Keys), sells, prices, factor);
    var sold := SellLoop(start, Sorted(sells.Keys), sells, prices, factor);
    var l := BuyLoop(sold, Sorted(buys.Keys), buys, prices, factor);
    FilledIsSettled(state, orders, prices, factor);
    return Applied(Holdings(l.cash, l.positions), l.fills);
  }
}
