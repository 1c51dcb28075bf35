/** What a fill event does, written out in quantities, prices and basis points: quantize/engine/fills.py. */
module Charges {
  import opened Collections
  import opened Diagnostics
  import opened FillProperties
  import opened Fills
  import opened Market
  import opened Portfolio

  /* ---- sums over a list of fills ---- */

  /** What was traded, at the fill prices. */
  function Turnover(fills: seq<Fill>): real {
    if fills == [] then 0.0 else Turnover(fills[1..]) + fills[0].quantity * fills[0].price
  }

  function CashMoved(fills: seq<Fill>): real {
    if fills == [] then 0.0 else CashMoved(fills[1..]) + fills[0].cashDelta
  }

  /** What was bought of an asset less what was sold of it. */
  function Bought(fills: seq<Fill>, asset: Asset): real {
    if fills == [] then 0.0
    else Bought(fills[1..], asset)
         + (if fills[0].asset != asset then 0.0 else if fills[0].side == Buy then fills[0].quantity else -fills[0].quantity)
  }

  lemma {:induction false} SumsSnoc(fills: seq<Fill>, f: Fill, asset: Asset)
    ensures Turnover(fills + [f]) == Turnover(fills) + f.quantity * f.price
    ensures CashMoved(fills + [f]) == CashMoved(fills) + f.cashDelta
    ensures Bought(fills + [f], asset)
         == Bought(fills, asset) + (if f.asset != asset then 0.0 else if f.side == Buy then f.quantity else -f.quantity)
  {
    if fills == [] {
      assert fills + [f] == [f];
      assert [f][1..] == [];
    } else {
      assert (fills + [f])[1..] == fills[1..] + [f];
      SumsSnoc(fills[1..], f, asset);
    }
  }

  /* ---- the ledger ---- */

  /** The ledger accounts for every fill on it: cash moved by their cash deltas, each position by their quantities. */
  ghost predicate Balances(state: PortfolioState, l: Ledger) {
    && l.cash == state.cash + CashMoved(l.fills)
    && forall a :: QuantityOf(l.positions, a) == QuantityOf(state.positions, a) + Bought(l.fills, a)
  }

  lemma SellBalances(state: PortfolioState, l: Ledger, asset: Asset, wanted: real, price: real, factor: real)
    requires Balances(state, l)
    ensures Balances(state, SellOne(l, asset, wanted, price, factor))
  {
    hide Times, CashMoved, Bought;
    var after := SellOne(l, asset, wanted, price, factor);
    var f := after.fills[|l.fills|];
    assert after.fills == l.fills + [f];
    forall a ensures QuantityOf(after.positions, a) == QuantityOf(state.positions, a) + Bought(after.fills, a) {
      SumsSnoc(l.fills, f, a);
      assert QuantityOf(l.positions, a) == QuantityOf(state.positions, a) + Bought(l.fills, a);
    }
    SumsSnoc(l.fills, f, asset);
  }

  lemma BuyBalances(state: PortfolioState, l: Ledger, asset: Asset, wanted: real, price: real, factor: real)
    requires Balances(state, l) && LedgerOk(l) && wanted > 0.0 && price > 0.0 && factor >= 0.0
    ensures UnitCost(price, factor) > 0.0
    ensures Balances(state, BuyOne(l, asset, wanted, price, factor))
  {
    hide Times, CashMoved, Bought, UnitCost, Affordable;
    UnitCostPositive(price, factor);
    AffordableFits(l.cash, wanted, UnitCost(price, factor));
    var after := BuyOne(l, asset, wanted, price, factor);
    var f := after.fills[|l.fills|];
    assert after.fills == l.fills + [f];
    forall a ensures QuantityOf(after.positions, a) == QuantityOf(state.positions, a) + Bought(after.fills, a) {
      SumsSnoc(l.fills, f, a);
      assert QuantityOf(l.positions, a) == QuantityOf(state.positions, a) + Bought(l.fills, a);
    }
    SumsSnoc(l.fills, f, asset);
  }

  lemma {:induction false} SellsBalance(state: PortfolioState, l: Ledger, names: seq<Asset>, wanted: map<Asset, real>, prices: map<Asset, real>, factor: real)
    requires Balances(state, l) && forall a :: a in names ==> a in wanted && a in prices
    ensures Balances(state, SellAll(l, names, wanted, prices, factor))
  {
    hide Balances, SellOne;
    if names != [] {
      var n := |names| - 1;
      var a := names[n];
      assert a in names;
      SellsBalance(state, l, names[..n], wanted, prices, factor);
      SellBalances(state, SellAll(l, names[..n], wanted, prices, factor), a, wanted[a], prices[a], factor);
    }
  }

  lemma {:induction false} BuysBalance(state: PortfolioState, l: Ledger, names: seq<Asset>, wanted: map<Asset, real>, prices: map<Asset, real>, factor: real)
    requires BuyPrices(names, wanted, prices) && factor >= 0.0 && Balances(state, l)
    requires LedgerOk(l) && forall a :: a in names ==> wanted[a] > 0.0
    ensures Balances(state, BuyAll(l, names, wanted, prices, factor))
  {
    hide Balances, BuyOne, LedgerOk, UnitCost;
    if names != [] {
      var n := |names| - 1;
      var a := names[n];
      assert a in names;
      BuysBalance(state, l, names[..n], wanted, prices, factor);
      BuyAllOk(l, names[..n], wanted, prices, factor);
      BuyBalances(state, BuyAll(l, names[..n], wanted, prices, factor), a, wanted[a], prices[a], factor);
    }
  }

  /** After a fill event the state differs from the one before by exactly what the fills say. */
  lemma FillsBalance(state: PortfolioState, orders: seq<Order>, view: DataView, date: Date, bps: real)
    requires PositiveOpens(view) && ApplyOrders(state, orders, view, date, bps).Applied?
    ensures var r := ApplyOrders(state, orders, view, date, bps);
      && r.state.cash == state.cash + CashMoved(r.fills)
      && forall a :: QuantityOf(r.state.positions, a) == QuantityOf(state.positions, a) + Bought(r.fills, a)
  {
    hide SellAll, BuyAll, OrderFaults, OpensFor, LedgerOk;
    FillsAreDefined(state, orders, view, date);
    var p, factor := OpensFor(view, date, orders), CostFactor(bps);
    var sells, buys := SideMap(orders, Sell), SideMap(orders, Buy);
    SidesPriced(orders, p);
    var l := Ledger(state.cash, state.positions, []);
    SettledStart(state);
    SellsBalance(state, l, Sorted(sells.Keys), sells, p, factor);
    SellAllOk(l, Sorted(sells.Keys), sells, p, factor);
    BuysBalance(state, SellAll(l, Sorted(sells.Keys), sells, p, factor), Sorted(buys.Keys), buys, p, factor);
  }

  /* ---- one fill ---- */

  /** The fill of an order: at the open of the fill session, no more than ordered, a sell no more than held, and charged bps
      ten-thousandths of its notional. */
  ghost predicate Charged(f: Fill, o: Order, state: PortfolioState, view: DataView, date: Date, bps: real) {
    && f.side == o.side && f.asset == o.asset && view.OpenPrice(f.asset, date) == Some(f.price)
    && 10000.0 * f.cost == f.quantity * f.price * bps
    && (if f.side == Sell
        then !f.scaled && f.quantity == (if o.quantity <= QuantityOf(state.positions, f.asset) then o.quantity else QuantityOf(state.positions, f.asset))
             && f.cashDelta == f.quantity * f.price - f.cost
        else 0.0 <= f.quantity <= o.quantity && (f.scaled <==> f.quantity < o.quantity)
             && f.cashDelta == -(f.quantity * f.price) - f.cost)
  }

  lemma FactorIs(bps: real, gross: real)
    requires CostsSupported(bps)
    ensures 10000.0 * Times(gross, CostFactor(bps)) == gross * bps
  {
    assert CostFactor(bps) * 10000.0 == bps;
  }

  lemma SellCharged(f: Fill, o: Order, state: PortfolioState, view: DataView, date: Date, bps: real)
    requires CostsSupported(bps) && o.side == Sell && view.OpenPrice(o.asset, date).Some?
    requires SellFill(f, o.asset, o.quantity, QuantityOf(state.positions, o.asset), view.OpenPrice(o.asset, date).value, CostFactor(bps))
    ensures Charged(f, o, state, view, date, bps)
  {
    hide DataView.OpenPrice, CostFactor;
    FactorIs(bps, Times(f.quantity, f.price));
  }

  lemma BuyCharged(f: Fill, o: Order, state: PortfolioState, view: DataView, date: Date, bps: real)
    requires CostsSupported(bps) && o.side == Buy && view.OpenPrice(o.asset, date).Some?
    requires BuyFill(f, o.asset, o.quantity, view.OpenPrice(o.asset, date).value, CostFactor(bps))
    ensures Charged(f, o, state, view, date, bps)
  {
    hide DataView.OpenPrice, CostFactor;
    FactorIs(bps, Times(f.quantity, f.price));
    SpendSplits(f.quantity, f.price, CostFactor(bps));
  }

  /** Every fill is the charged fill of an order. */
  lemma FillsAreCharged(state: PortfolioState, orders: seq<Order>, view: DataView, date: Date, bps: real, f: Fill)
    requires PositiveOpens(view) && ApplyOrders(state, orders, view, date, bps).Applied?
    requires f in ApplyOrders(state, orders, view, date, bps).fills
    ensures 0.0 <= bps < 10000.0 && exists o: Order :: o in orders && Charged(f, o, state, view, date, bps)
  {
    hide SellFill, BuyFill, Charged, DataView.OpenPrice, ApplyOrders, OpensFor;
    AppliedCosts(state, orders, view, date, bps);
    FillsMatchOrders(state, orders, view, date, bps);
    var sells, buys, opens := SideMap(orders, Sell), SideMap(orders, Buy), OpensFor(view, date, orders);
    var s, b := Sorted(sells.Keys), Sorted(buys.Keys);
    var fills := ApplyOrders(state, orders, view, date, bps).fills;
    var i :| 0 <= i < |fills| && fills[i] == f;
    if i < |s| {
      var a := s[i];
      assert fills[..|s|][i] == f && a in s;
      var o: Order := Order(Sell, a, sells[a]);
      SellCharged(f, o, state, view, date, bps);
      assert o in orders;
    } else {
      var a := b[i - |s|];
      assert fills[|s|..][i - |s|] == f && a in b;
      var o: Order := Order(Buy, a, buys[a]);
      BuyCharged(f, o, state, view, date, bps);
      assert o in orders;
    }
  }

  lemma AppliedCosts(state: PortfolioState, orders: seq<Order>, view: DataView, date: Date, bps: real)
    requires PositiveOpens(view) && ApplyOrders(state, orders, view, date, bps).Applied?
    ensures 0.0 <= bps < 10000.0 && CostsSupported(bps)
  {
    hide OrderFaults, Settle, OpensFor;
  }

  ghost predicate AtRate(cost: real, notional: real, bps: real) {
    10000.0 * cost == notional * bps
  }

  ghost predicate FillAtRate(f: Fill, bps: real) {
    AtRate(f.cost, f.quantity * f.price, bps)
  }

  ghost predicate FillsAtRate(fills: seq<Fill>, bps: real) {
    AtRate(Costs(fills), Turnover(fills), bps)
  }

  lemma Accrue(a: real, c: real, t: real, x: real, bps: real)
    requires AtRate(a, t, bps) && AtRate(c, x, bps)
    ensures AtRate(a + c, t + x, bps)
  {
  }

  lemma RateSnoc(fills: seq<Fill>, bps: real)
    requires fills != [] && FillsAtRate(fills[..|fills| - 1], bps) && FillAtRate(fills[|fills| - 1], bps)
    ensures FillsAtRate(fills, bps)
  {
    var n := |fills| - 1;
    var front, f := fills[..n], fills[n];
    assert fills == front + [f];
    SumsSnoc(front, f, f.asset);
    assert Costs(fills) == Costs(front) + f.cost;
    hide Costs, Turnover, AtRate;
    Accrue(Costs(front), f.cost, Turnover(front), f.quantity * f.price, bps);
  }

  lemma {:induction false} CostsOfTurnover(fills: seq<Fill>, bps: real)
    requires forall f :: f in fills ==> FillAtRate(f, bps)
    ensures FillsAtRate(fills, bps)
  {
    if fills == [] {
      assert Costs(fills) == 0.0 && Turnover(fills) == 0.0;
    } else {
      hide FillAtRate, FillsAtRate;
      assert fills[|fills| - 1] in fills;
      CostsOfTurnover(fills[..|fills| - 1], bps);
      RateSnoc(fills, bps);
    }
  }

  /** Portfolio value at the fill prices drops by bps ten-thousandths of what was traded. */
  lemma ValueDropsByRate(state: PortfolioState, orders: seq<Order>, view: DataView, date: Date, bps: real, prices: map<Asset, real>)
    requires PositiveOpens(view) && ApplyOrders(state, orders, view, date, bps).Applied?
    requires state.positions.Keys <= prices.Keys
    requires forall o :: o in orders ==> o.asset in prices && view.OpenPrice(o.asset, date) == Some(prices[o.asset])
    ensures var r := ApplyOrders(state, orders, view, date, bps);
      r.state.positions.Keys <= prices.Keys
      && 10000.0 * (state.cash + Worth(state.positions, prices) - r.state.cash - Worth(r.state.positions, prices)) == Turnover(r.fills) * bps
  {
    hide Worth, ApplyOrders, DataView.OpenPrice, Costs, Turnover;
    var r := ApplyOrders(state, orders, view, date, bps);
    ValueDropsByCosts(state, orders, view, date, bps, prices);
    forall f | f in r.fills ensures FillAtRate(f, bps) {
      FillsAreCharged(state, orders, view, date, bps, f);
    }
    CostsOfTurnover(r.fills, bps);
  }

  /** A buy is cut short only when it takes all the cash there is left. */
  lemma ShortfallSpendsAll(state: PortfolioState, orders: seq<Order>, view: DataView, date: Date, bps: real, f: Fill)
    requires PositiveOpens(view) && ApplyOrders(state, orders, view, date, bps).Applied?
    requires f in ApplyOrders(state, orders, view, date, bps).fills && f.scaled
    ensures ApplyOrders(state, orders, view, date, bps).state.cash == 0.0
  {
    hide SellAll, BuyAll, OrderFaults, OpensFor, LedgerOk, SellFill, BuyFill, ShortfallLast, BuyFills;
    FillsAreDefined(state, orders, view, date);
    FillsMatchOrders(state, orders, view, date, bps);
    var p, factor := OpensFor(view, date, orders), CostFactor(bps);
    var sells, buys := SideMap(orders, Sell), SideMap(orders, Buy);
    var s := Sorted(sells.Keys);
    SidesPriced(orders, p);
    SettledStart(state);
    var l := Ledger(state.cash, state.positions, []);
    SellAllOk(l, s, sells, p, factor);
    SoldFills(l, s, sells, p, factor);
    AfterScaledOnlyZero(SellAll(l, s, sells, p, factor), Sorted(buys.Keys), buys, p, factor);
    var fills := ApplyOrders(state, orders, view, date, bps).fills;
    var i :| 0 <= i < |fills| && fills[i] == f;
    if i < |s| {
      assert fills[..|s|][i] == f;
      NotScaled(f, s[i], sells[s[i]], QuantityOf(state.positions, s[i]), p[s[i]], factor);
    }
  }

  lemma NotScaled(f: Fill, asset: Asset, wanted: real, held: real, price: real, factor: real)
    requires SellFill(f, asset, wanted, held, price, factor)
    ensures !f.scaled
  {
  }

  /* ---- refusals ---- */

  /** An asset without an open at the date; a sell beyond the holding; a second order on the same side of an asset. */
  ghost predicate OrderFaultOf(state: PortfolioState, view: DataView, date: Date, orders: seq<Order>, i: nat, code: Code)
    requires i < |orders|
  {
    var o := orders[i];
    match code
    case MissingOpenPrice => view.OpenPrice(o.asset, date).None?
    case InvalidOrder => (o.side == Sell && o.quantity > QuantityOf(state.positions, o.asset) + 0.000000001)
                         || exists j :: 0 <= j < i && orders[j].side == o.side && orders[j].asset == o.asset
    case _ => false
  }

  ghost predicate OrderFaultIn(state: PortfolioState, view: DataView, date: Date, orders: seq<Order>, f: Diagnostic) {
    f.path == [] && exists i: nat :: i < |orders| && orders[i].asset == f.subject && OrderFaultOf(state, view, date, orders, i, f.code)
  }

  lemma OwnTold(state: PortfolioState, view: DataView, date: Date, orders: seq<Order>, n: nat, f: Diagnostic)
    requires |orders| == n + 1
    ensures f in DuplicateFault(orders[n], orders[..n]) + OwnFaults(state, view, date, orders[n])
      <==> f.path == [] && orders[n].asset == f.subject && OrderFaultOf(state, view, date, orders, n, f.code)
  {
    hide DataView.OpenPrice, QuantityOf;
    assert forall j :: 0 <= j < n ==> orders[..n][j] == orders[j];
    KeyTold(orders, n);
  }

  lemma KeyTold(orders: seq<Order>, n: nat)
    requires |orders| == n + 1
    ensures KeyIn(orders[n], orders[..n]) <==> exists j :: 0 <= j < n && orders[j].side == orders[n].side && orders[j].asset == orders[n].asset
  {
    if j :| 0 <= j < n && orders[j].side == orders[n].side && orders[j].asset == orders[n].asset {
      assert SameKey(orders[..n][j], orders[n]);
    }
  }

  lemma {:induction false} OrderFindings(state: PortfolioState, view: DataView, date: Date, orders: seq<Order>, f: Diagnostic)
    ensures f in OrderFaults(state, view, date, orders) <==> OrderFaultIn(state, view, date, orders, f)
  {
    hide DataView.OpenPrice, QuantityOf, DuplicateFault, OwnFaults, OrderFaultOf;
    if orders != [] {
      var n := |orders| - 1;
      var front := orders[..n];
      OrderFindings(state, view, date, front, f);
      OwnTold(state, view, date, orders, n, f);
      forall i: nat | i < n ensures OrderFaultOf(state, view, date, front, i, f.code) <==> OrderFaultOf(state, view, date, orders, i, f.code) {
        FrontFault(state, view, date, orders, n, i, f.code);
      }
      if i: nat :| i < n && front[i].asset == f.subject && OrderFaultOf(state, view, date, front, i, f.code) {
        assert orders[i].asset == f.subject;
      }
      if i: nat :| i < |orders| && orders[i].asset == f.subject && OrderFaultOf(state, view, date, orders, i, f.code) {
        if i < n {
          assert front[i].asset == f.subject;
        }
      }
    }
  }

  lemma FrontFault(state: PortfolioState, view: DataView, date: Date, orders: seq<Order>, n: nat, i: nat, code: Code)
    requires i < n <= |orders|
    ensures OrderFaultOf(state, view, date, orders[..n], i, code) <==> OrderFaultOf(state, view, date, orders, i, code)
  {
    hide DataView.OpenPrice, QuantityOf;
    assert forall j :: 0 <= j < n ==> orders[..n][j] == orders[j];
  }

  /** Orders are refused for unsupported costs, or for exactly the faults they have. */
  lemma RejectionSays(state: PortfolioState, orders: seq<Order>, view: DataView, date: Date, bps: real)
    requires PositiveOpens(view)
    ensures var r := ApplyOrders(state, orders, view, date, bps);
      && (r.Rejected? <==> !(0.0 <= bps < 10000.0) || exists f :: OrderFaultIn(state, view, date, orders, f))
      && (!(0.0 <= bps < 10000.0) ==> r == Rejected(multiset{Fault(InvalidTransactionCosts, 0)}))
      && (0.0 <= bps < 10000.0 && r.Rejected? ==> forall f :: f in r.diagnostics <==> OrderFaultIn(state, view, date, orders, f))
  {
    hide OrderFaults, Filled, OpensFor, OrderFaultIn;
    forall f ensures f in OrderFaults(state, view, date, orders) <==> OrderFaultIn(state, view, date, orders, f) {
      OrderFindings(state, view, date, orders, f);
    }
    SomeMember(OrderFaults(state, view, date, orders));
  }

  lemma SomeMember(r: Report)
    ensures r != multiset{} <==> exists f :: f in r
  {
  }
}
