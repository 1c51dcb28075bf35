/** What filling an order list promises: conservation up to costs, the cash floor, and independence of the
    order in which the list presents its orders. */
module FillProperties {
  import opened Collections
  import opened Diagnostics
  import opened Fills
  import opened Market
  import opened Portfolio

  function Costs(fills: seq<Fill>): real {
    if fills == [] then 0.0 else Costs(fills[..|fills| - 1]) + fills[|fills| - 1].cost
  }

  lemma CostsSnoc(fills: seq<Fill>, f: Fill)
    ensures Costs(fills + [f]) == Costs(fills) + f.cost
  {
    assert (fills + [f])[..|fills|] == fills;
  }

  /* ---- conservation ---- */

  lemma WorthSet(positions: map<Asset, real>, a: Asset, q: real, prices: map<Asset, real>)
    requires positions.Keys <= prices.Keys && a in prices
    ensures Worth(positions[a := q], prices)
         == Worth(positions, prices) - Times(QuantityOf(positions, a), prices[a]) + Times(q, prices[a])
  {
    var n, n' := Notionals(positions, prices), Notionals(positions[a := q], prices);
    assert n' == n[a := Times(q, prices[a])];
    if a in positions {
      SumUpdate(n, a, Times(q, prices[a]));
    } else {
      assert Times(0.0, prices[a]) == 0.0;
      SumInsert(n, a, Times(q, prices[a]));
    }
  }

  lemma WorthDrop(positions: map<Asset, real>, a: Asset, prices: map<Asset, real>)
    requires positions.Keys <= prices.Keys && a in prices
    ensures Worth(positions - {a}, prices) == Worth(positions, prices) - Times(QuantityOf(positions, a), prices[a])
  {
    var n, n' := Notionals(positions, prices), Notionals(positions - {a}, prices);
    assert n' == n - {a};
    if a in positions {
      SumRemove(n, a);
    } else {
      assert Times(0.0, prices[a]) == 0.0;
      assert n - {a} == n;
    }
  }

  lemma TimesMinus(x: real, y: real, f: real)
    ensures Times(x - y, f) == Times(x, f) - Times(y, f)
  {
  }

  ghost function Wealth(l: Ledger, prices: map<Asset, real>): real
    requires l.positions.Keys <= prices.Keys
  {
    l.cash + Worth(l.positions, prices) + Costs(l.fills)
  }

  lemma SellConserves(l: Ledger, asset: Asset, wanted: real, factor: real, prices: map<Asset, real>)
    requires l.positions.Keys <= prices.Keys && asset in prices
    ensures var l' := SellOne(l, asset, wanted, prices[asset], factor);
      l'.positions.Keys <= prices.Keys && Wealth(l', prices) == Wealth(l, prices)
  {
    hide Worth, Times;
    var price := prices[asset];
    var held := QuantityOf(l.positions, asset);
    var quantity := if wanted <= held then wanted else held;
    var l' := SellOne(l, asset, wanted, price, factor);
    TimesMinus(held, quantity, price);
    CostsSnoc(l.fills, l'.fills[|l.fills|]);
    if held - quantity <= 0.0 || quantity == held {
      assert quantity == held;
      WorthDrop(l.positions, asset, prices);
    } else {
      WorthSet(l.positions, asset, held - quantity, prices);
    }
  }

  lemma SpendSplits(quantity: real, price: real, factor: real)
    ensures Times(quantity, UnitCost(price, factor)) == Times(quantity, price) + Times(Times(quantity, price), factor)
  {
    assert UnitCost(price, factor) == price + price * factor;
    assert quantity * (price + price * factor) == quantity * price + quantity * price * factor;
  }

  lemma BuyConserves(l: Ledger, asset: Asset, wanted: real, factor: real, prices: map<Asset, real>)
    requires l.positions.Keys <= prices.Keys && asset in prices && prices[asset] > 0.0 && factor >= 0.0
    requires LedgerOk(l) && wanted > 0.0
    ensures UnitCost(prices[asset], factor) > 0.0
    ensures var l' := BuyOne(l, asset, wanted, prices[asset], factor);
      l'.positions.Keys <= prices.Keys && Wealth(l', prices) == Wealth(l, prices)
  {
    hide Worth, Times, UnitCost, Affordable;
    var price := prices[asset];
    UnitCostPositive(price, factor);
    var unit := UnitCost(price, factor);
    var quantity := Affordable(l.cash, wanted, unit);
    AffordableFits(l.cash, wanted, unit);
    var l' := BuyOne(l, asset, wanted, price, factor);
    SpendSplits(quantity, price, factor);
    CostsSnoc(l.fills, l'.fills[|l.fills|]);
    Distribute(QuantityOf(l.positions, asset), quantity, price);
    if quantity > 0.0 {
      WorthSet(l.positions, asset, QuantityOf(l.positions, asset) + quantity, prices);
    } else {
      ZeroTimes(price);
    }
  }

  lemma ZeroTimes(x: real)
    ensures Times(0.0, x) == 0.0
  {
  }

  lemma {:induction false} SellAllConserves(l: Ledger, names: seq<Asset>, wanted: map<Asset, real>, factor: real, prices: map<Asset, real>)
    requires l.positions.Keys <= prices.Keys && forall a :: a in names ==> a in wanted && a in prices
    ensures var l' := SellAll(l, names, wanted, prices, factor);
      l'.positions.Keys <= prices.Keys && Wealth(l', prices) == Wealth(l, prices)
  {
    hide SellOne, Wealth;
    if names != [] {
      var n := |names| - 1;
      var a := names[n];
      assert a in names;
      SellAllConserves(l, names[..n], wanted, factor, prices);
      SellConserves(SellAll(l, names[..n], wanted, prices, factor), a, wanted[a], factor, prices);
    }
  }

  lemma {:induction false} BuyAllConserves(l: Ledger, names: seq<Asset>, wanted: map<Asset, real>, factor: real, prices: map<Asset, real>)
    requires l.positions.Keys <= prices.Keys && BuyPrices(names, wanted, prices) && factor >= 0.0
    requires LedgerOk(l) && forall a :: a in names ==> wanted[a] > 0.0
    ensures var l' := BuyAll(l, names, wanted, prices, factor);
      l'.positions.Keys <= prices.Keys && Wealth(l', prices) == Wealth(l, prices)
  {
    hide BuyOne, Wealth, UnitCost;
    if names != [] {
      var n := |names| - 1;
      var a := names[n];
      assert a in names;
      BuyAllOk(l, names[..n], wanted, prices, factor);
      BuyAllConserves(l, names[..n], wanted, factor, prices);
      BuyConserves(BuyAll(l, names[..n], wanted, prices, factor), a, wanted[a], factor, prices);
    }
  }

  /** Pricing by a larger price list changes nothing. */
  lemma {:induction false} SellAllSame(l: Ledger, names: seq<Asset>, wanted: map<Asset, real>, p: map<Asset, real>, q: map<Asset, real>, factor: real)
    requires forall a :: a in names ==> a in wanted && a in p && a in q && p[a] == q[a]
    ensures SellAll(l, names, wanted, p, factor) == SellAll(l, names, wanted, q, factor)
  {
    hide SellOne;
    if names != [] {
      var n := |names| - 1;
      var a := names[n];
      assert a in names;
      SellAllSame(l, names[..n], wanted, p, q, factor);
    }
  }

  lemma {:induction false} BuyAllSame(l: Ledger, names: seq<Asset>, wanted: map<Asset, real>, p: map<Asset, real>, q: map<Asset, real>, factor: real)
    requires BuyPrices(names, wanted, p) && BuyPrices(names, wanted, q) && factor >= 0.0
    requires forall a :: a in names ==> p[a] == q[a]
    ensures BuyAll(l, names, wanted, p, factor) == BuyAll(l, names, wanted, q, factor)
  {
    hide BuyOne, UnitCost;
    if names != [] {
      var n := |names| - 1;
      var a := names[n];
      assert a in names;
      BuyAllSame(l, names[..n], wanted, p, q, factor);
    }
  }

  /** Portfolio value at any prices that agree with the fill prices drops by exactly the costs charged. */
  lemma ValueDropsByCosts(state: PortfolioState, orders: seq<Order>, view: DataView, date: Date, bps: real, prices: map<Asset, real>)
    requires PositiveOpens(view) && ApplyOrders(state, orders, view, date, bps).Applied?
    requires state.positions.Keys <= prices.Keys
    requires forall o :: o in orders ==> o.asset in prices && view.OpenPrice(o.asset, date) == Some(prices[o.asset])
    ensures var r := ApplyOrders(state, orders, view, date, bps);
      r.state.positions.Keys <= prices.Keys
      && r.state.cash + Worth(r.state.positions, prices)
         == state.cash + Worth(state.positions, prices) - Costs(r.fills)
  {
    hide Worth, SellAll, BuyAll, OrderFaults, OpensFor, UnitCost;
    FillsAreDefined(state, orders, view, date);
    var p, factor := OpensFor(view, date, orders), CostFactor(bps);
    var sells, buys := SideMap(orders, Sell), SideMap(orders, Buy);
    SidesPriced(orders, p);
    var l := Ledger(state.cash, state.positions, []);
    var s, b := Sorted(sells.Keys), Sorted(buys.Keys);
    forall a | a in s ensures a in prices && prices[a] == p[a] { assert Order(Sell, a, sells[a]) in orders; }
    forall a | a in b ensures a in prices && prices[a] == p[a] { assert Order(Buy, a, buys[a]) in orders; }
    SellAllSame(l, s, sells, p, prices, factor);
    var sold := SellAll(l, s, sells, prices, factor);
    SellAllOk(l, s, sells, p, factor);
    SellAllConserves(l, s, sells, factor, prices);
    BuyAllSame(sold, b, buys, p, prices, factor);
    BuyAllConserves(sold, b, buys, factor, prices);
  }

  /* ---- what each fill is ---- */

  /** Quantities sold are the order's, clamped to the holding; cash and cost follow from price and bps. */
  ghost predicate SellFill(f: Fill, asset: Asset, wanted: real, held: real, price: real, factor: real) {
    && f.side == Sell && f.asset == asset && f.price == price && !f.scaled
    && f.quantity == (if wanted <= held then wanted else held)
    && f.cost == Times(Times(f.quantity, price), factor)
    && f.cashDelta == Times(f.quantity, price) - f.cost
  }

  /** A buy is filled in full or scaled; a scaled buy has used up all the cash there was. */
  ghost predicate BuyFill(f: Fill, asset: Asset, wanted: real, price: real, factor: real) {
    && f.side == Buy && f.asset == asset && f.price == price
    && 0.0 <= f.quantity <= wanted
    && (f.scaled <==> f.quantity < wanted)
    && f.cost == Times(Times(f.quantity, price), factor)
    && f.cashDelta == -Times(f.quantity, UnitCost(price, factor))
  }

  lemma {:induction false} SellAllFills(l: Ledger, names: seq<Asset>, wanted: map<Asset, real>, prices: map<Asset, real>, factor: real)
    requires Distinct(names) && BuyPrices(names, wanted, prices)
    ensures var l' := SellAll(l, names, wanted, prices, factor);
      |l'.fills| == |l.fills| + |names| && l.fills <= l'.fills
      && (forall i :: 0 <= i < |names| ==>
            SellFill(l'.fills[|l.fills| + i], names[i], wanted[names[i]], QuantityOf(l.positions, names[i]), prices[names[i]], factor))
      && (forall a :: a !in names ==> QuantityOf(l'.positions, a) == QuantityOf(l.positions, a))
  {
    hide Times, SellFill, SellOne;
    if names != [] {
      var n := |names| - 1;
      var a := names[n];
      assert a in names && a !in names[..n];
      assert forall x :: x in names <==> x in names[..n] || x == a;
      SellAllFills(l, names[..n], wanted, prices, factor);
      assert forall i :: 0 <= i < n ==> names[..n][i] == names[i];
      SellOneFill(SellAll(l, names[..n], wanted, prices, factor), a, wanted[a], prices[a], factor);
    }
  }

  lemma SellOneFill(l: Ledger, asset: Asset, wanted: real, price: real, factor: real)
    ensures var l' := SellOne(l, asset, wanted, price, factor);
      |l'.fills| == |l.fills| + 1 && l.fills <= l'.fills
      && SellFill(l'.fills[|l.fills|], asset, wanted, QuantityOf(l.positions, asset), price, factor)
      && (forall a :: a != asset ==> QuantityOf(l'.positions, a) == QuantityOf(l.positions, a))
  {
    hide Times;
  }

  lemma {:induction false} BuyAllFills(l: Ledger, names: seq<Asset>, wanted: map<Asset, real>, prices: map<Asset, real>, factor: real)
    requires BuyPrices(names, wanted, prices) && factor >= 0.0
    requires LedgerOk(l) && forall a :: a in names ==> wanted[a] > 0.0
    ensures var l' := BuyAll(l, names, wanted, prices, factor);
      |l'.fills| == |l.fills| + |names| && l.fills <= l'.fills
      && (forall i :: 0 <= i < |names| ==>
            BuyFill(l'.fills[|l.fills| + i], names[i], wanted[names[i]], prices[names[i]], factor))
  {
    hide Times, UnitCost, LedgerOk;
    if names != [] {
      var n := |names| - 1;
      var a := names[n];
      assert a in names;
      var before := BuyAll(l, names[..n], wanted, prices, factor);
      BuyAllOk(l, names[..n], wanted, prices, factor);
      BuyAllFills(l, names[..n], wanted, prices, factor);
      assert forall i :: 0 <= i < n ==> names[..n][i] == names[i];
      BuyOneFill(before, a, wanted[a], prices[a], factor);
    }
  }

  lemma BuyOneFill(l: Ledger, asset: Asset, wanted: real, price: real, factor: real)
    requires LedgerOk(l) && wanted > 0.0 && price > 0.0 && factor >= 0.0
    ensures UnitCost(price, factor) > 0.0
    ensures var l' := BuyOne(l, asset, wanted, price, factor);
      |l'.fills| == |l.fills| + 1 && l.fills <= l'.fills && BuyFill(l'.fills[|l.fills|], asset, wanted, price, factor)
      && (l'.fills[|l.fills|].scaled ==> l'.cash == 0.0)
      && (l.cash == 0.0 ==> l'.fills[|l.fills|].quantity == 0.0 && l'.fills[|l.fills|].scaled)
  {
    hide Times, UnitCost;
    UnitCostPositive(price, factor);
    var unit := UnitCost(price, factor);
    AffordableFits(l.cash, wanted, unit);
    if l.cash == 0.0 {
      PositiveTimes(wanted, unit);
      NothingAffordable(wanted, unit);
    }
  }

  lemma PositiveTimes(x: real, y: real)
    requires x > 0.0 && y > 0.0
    ensures Times(x, y) > 0.0
  {
  }

  lemma NothingAffordable(wanted: real, unit: real)
    requires wanted > 0.0 && unit > 0.0
    ensures Affordable(0.0, wanted, unit) == 0.0
  {
    PositiveTimes(wanted, unit);
    assert 0.0 / unit == 0.0;
  }

  /** Later buys bear the shortfall: once one buy is scaled, every later one is scaled to zero. */
  lemma {:induction false} AfterScaledOnlyZero(l: Ledger, names: seq<Asset>, wanted: map<Asset, real>, prices: map<Asset, real>, factor: real)
    requires BuyPrices(names, wanted, prices) && factor >= 0.0
    requires LedgerOk(l) && forall a :: a in names ==> wanted[a] > 0.0
    ensures var l' := BuyAll(l, names, wanted, prices, factor);
      |l'.fills| == |l.fills| + |names|
      && (forall i, j :: |l.fills| <= i < j < |l'.fills| && l'.fills[i].scaled ==> l'.fills[j].scaled && l'.fills[j].quantity == 0.0)
      && (forall i :: |l.fills| <= i < |l'.fills| && l'.fills[i].scaled ==> l'.cash == 0.0)
  {
    hide Times, UnitCost, LedgerOk, BuyOne;
    if names != [] {
      var n := |names| - 1;
      var a := names[n];
      assert a in names;
      var before := BuyAll(l, names[..n], wanted, prices, factor);
      BuyAllOk(l, names[..n], wanted, prices, factor);
      AfterScaledOnlyZero(l, names[..n], wanted, prices, factor);
      BuyOneFill(before, a, wanted[a], prices[a], factor);
      BuyOneFloor(before, a, wanted[a], prices[a], factor);
    }
  }

  lemma BuyOneFloor(l: Ledger, asset: Asset, wanted: real, price: real, factor: real)
    requires LedgerOk(l) && wanted > 0.0 && price > 0.0 && factor >= 0.0
    ensures UnitCost(price, factor) > 0.0
    ensures l.cash == 0.0 ==> BuyOne(l, asset, wanted, price, factor).cash == 0.0
  {
    UnitCostPositive(price, factor);
    if l.cash == 0.0 {
      NothingAffordable(wanted, UnitCost(price, factor));
      ZeroTimes(UnitCost(price, factor));
    }
  }

  ghost predicate SellFills(fills: seq<Fill>, names: seq<Asset>, wanted: map<Asset, real>, positions: map<Asset, real>,
                            prices: map<Asset, real>, factor: real)
    requires BuyPrices(names, wanted, prices)
  {
    |fills| == |names| && forall i :: 0 <= i < |names| ==>
      SellFill(fills[i], names[i], wanted[names[i]], QuantityOf(positions, names[i]), prices[names[i]], factor)
  }

  ghost predicate BuyFills(fills: seq<Fill>, names: seq<Asset>, wanted: map<Asset, real>, prices: map<Asset, real>, factor: real)
    requires BuyPrices(names, wanted, prices)
  {
    |fills| == |names| && forall i :: 0 <= i < |names| ==>
      BuyFill(fills[i], names[i], wanted[names[i]], prices[names[i]], factor)
  }

  /** Once a buy is scaled, every later one is scaled to zero. */
  ghost predicate ShortfallLast(fills: seq<Fill>) {
    forall i, j :: 0 <= i < j < |fills| && fills[i].scaled ==> fills[j].scaled && fills[j].quantity == 0.0
  }

  lemma SoldFills(l: Ledger, names: seq<Asset>, wanted: map<Asset, real>, prices: map<Asset, real>, factor: real)
    requires l.fills == [] && Distinct(names) && BuyPrices(names, wanted, prices)
    ensures SellFills(SellAll(l, names, wanted, prices, factor).fills, names, wanted, l.positions, prices, factor)
  {
    hide SellFill, SellAll;
    SellAllFills(l, names, wanted, prices, factor);
  }

  lemma BoughtFills(l: Ledger, names: seq<Asset>, wanted: map<Asset, real>, prices: map<Asset, real>, factor: real)
    requires BuyPrices(names, wanted, prices) && factor >= 0.0
    requires LedgerOk(l) && forall a :: a in names ==> wanted[a] > 0.0
    ensures var fills, n := BuyAll(l, names, wanted, prices, factor).fills, |l.fills|;
      |fills| == n + |names| && fills[..n] == l.fills
      && BuyFills(fills[n..], names, wanted, prices, factor) && ShortfallLast(fills[n..])
  {
    hide BuyFill, BuyAll, LedgerOk;
    BuyAllFills(l, names, wanted, prices, factor);
    AfterScaledOnlyZero(l, names, wanted, prices, factor);
  }

  lemma SettledStart(state: PortfolioState)
    ensures LedgerOk(Ledger(state.cash, state.positions, []))
  {
  }

  /** The fills of an accepted list: every order has exactly one, sells before buys, each side in asset
      order; none exceeds its order; once a buy is scaled the later ones are zero. */
  lemma FillsMatchOrders(state: PortfolioState, orders: seq<Order>, view: DataView, date: Date, bps: real)
    requires PositiveOpens(view) && ApplyOrders(state, orders, view, date, bps).Applied?
    ensures var sells, buys, opens := SideMap(orders, Sell), SideMap(orders, Buy), OpensFor(view, date, orders);
      var s, b := Sorted(sells.Keys), Sorted(buys.Keys);
      var fills := ApplyOrders(state, orders, view, date, bps).fills;
      && BuyPrices(s, sells, opens) && BuyPrices(b, buys, opens)
      && |fills| == |s| + |b|
      && SellFills(fills[..|s|], s, sells, state.positions, opens, CostFactor(bps))
      && BuyFills(fills[|s|..], b, buys, opens, CostFactor(bps))
      && ShortfallLast(fills[|s|..])
  {
    hide SellAll, BuyAll, OrderFaults, SellFill, BuyFill, BuyFills, ShortfallLast, LedgerOk;
    FillsAreDefined(state, orders, view, date);
    var p, factor := OpensFor(view, date, orders), CostFactor(bps);
    var sells, buys := SideMap(orders, Sell), SideMap(orders, Buy);
    SidesPriced(orders, p);
    var l := Ledger(state.cash, state.positions, []);
    var s, b := Sorted(sells.Keys), Sorted(buys.Keys);
    SettledStart(state);
    SellAllOk(l, s, sells, p, factor);
    SoldFills(l, s, sells, p, factor);
    var sold := SellAll(l, s, sells, p, factor);
    BoughtFills(sold, b, buys, p, factor);
    assert |sold.fills| == |s|;
  }

  /** Costs outside the range and any invalid order refuse the whole event; otherwise it applies. */
  lemma AllOrNothing(state: PortfolioState, orders: seq<Order>, view: DataView, date: Date, bps: real)
    requires PositiveOpens(view)
    ensures ApplyOrders(state, orders, view, date, bps).Applied?
      <==> 0.0 <= bps < 10000.0 && UniqueKeys(orders)
           && (forall o :: o in orders ==> view.OpenPrice(o.asset, date).Some?)
           && (forall o :: o in orders && o.side == Sell ==> o.quantity <= QuantityOf(state.positions, o.asset) + 0.000000001)
  {
    hide Filled, OpensFor, UniqueKeys, OrderFaults, OrdersPriced, DataView.OpenPrice;
    OrderFaultsNone(state, view, date, orders);
    if Clean(state, view, date, orders) {
      forall o | o in orders ensures OwnFaults(state, view, date, o) == multiset{} {
        var i :| 0 <= i < |orders| && orders[i] == o;
      }
      forall o | o in orders ensures view.OpenPrice(o.asset, date).Some? {
        assert OwnFaults(state, view, date, o) == multiset{};
        assert view.OpenPrice(o.asset, date).None? ==> Fault(MissingOpenPrice, o.asset) in OwnFaults(state, view, date, o);
      }
      forall o | o in orders && o.side == Sell ensures o.quantity <= QuantityOf(state.positions, o.asset) + OVERSELL_TOLERANCE {
        assert OwnFaults(state, view, date, o) == multiset{};
        assert !(o.quantity <= QuantityOf(state.positions, o.asset) + OVERSELL_TOLERANCE)
          ==> Fault(InvalidOrder, o.asset) in OwnFaults(state, view, date, o);
      }
    }
  }

  /* ---- the list is only presentation ---- */

  ghost function Without(s: seq<Order>, k: nat): seq<Order>
    requires k < |s|
  {
    s[..k] + s[k + 1..]
  }

  lemma WithoutMembers(s: seq<Order>, k: nat, x: Order)
    requires k < |s|
    ensures KeyIn(x, s) <==> KeyIn(x, Without(s, k)) || SameKey(s[k], x)
    ensures multiset(s) == multiset(Without(s, k)) + multiset{s[k]}
  {
    assert s == s[..k] + [s[k]] + s[k + 1..];
    var w := Without(s, k);
    if KeyIn(x, s) && !SameKey(s[k], x) {
      var i :| 0 <= i < |s| && SameKey(s[i], x);
      assert w[if i < k then i else i - 1] == s[i];
    }
    if KeyIn(x, w) {
      var i :| 0 <= i < |w| && SameKey(w[i], x);
      assert w[i] == s[if i < k then i else i + 1];
    }
  }

  lemma Shuffle(rest: Report, ox: Report, oy: Report, dx: Report, dy: Report, ex: Report, ey: Report)
    requires dx + ey == dy + ex
    ensures (rest + dx + ox) + ey + oy == (rest + dy + oy) + ex + ox
  {
    assert (rest + dx + ox) + ey + oy == rest + ox + oy + (dx + ey);
    assert (rest + dy + oy) + ex + ox == rest + ox + oy + (dy + ex);
  }

  /** Any order can be regarded as the last one validated. */
  lemma {:induction false} FaultsFromAny(state: PortfolioState, view: DataView, date: Date, s: seq<Order>, k: nat)
    requires k < |s|
    ensures OrderFaults(state, view, date, s)
         == OrderFaults(state, view, date, Without(s, k)) + DuplicateFault(s[k], Without(s, k)) + OwnFaults(state, view, date, s[k])
  {
    hide OwnFaults, DuplicateFault, KeyIn, SameKey;
    var n := |s| - 1;
    if k == n {
      assert Without(s, k) == s[..n];
    } else {
      var front := s[..n];
      var rest := Without(front, k);
      var x, y := s[k], s[n];
      FaultsFromAny(state, view, date, front, k);
      assert front[k] == x;
      var w := Without(s, k);
      assert w == rest + [y];
      assert w[..|w| - 1] == rest && w[|w| - 1] == y;
      WithoutMembers(front, k, y);
      KeyInSnoc(x, rest, y);
      DuplicatesBalance(x, y, rest, front, w);
      Shuffle(OrderFaults(state, view, date, rest), OwnFaults(state, view, date, x), OwnFaults(state, view, date, y),
              DuplicateFault(x, rest), DuplicateFault(y, rest), DuplicateFault(x, w), DuplicateFault(y, front));
    }
  }

  lemma KeyInSnoc(x: Order, s: seq<Order>, o: Order)
    ensures KeyIn(x, s + [o]) <==> KeyIn(x, s) || SameKey(o, x)
  {
    var t := s + [o];
    assert t[|s|] == o;
    if KeyIn(x, s) {
      var i :| 0 <= i < |s| && SameKey(s[i], x);
      assert t[i] == s[i];
    }
  }

  lemma DuplicatesBalance(x: Order, y: Order, rest: seq<Order>, withX: seq<Order>, withY: seq<Order>)
    requires KeyIn(y, withX) <==> KeyIn(y, rest) || SameKey(x, y)
    requires KeyIn(x, withY) <==> KeyIn(x, rest) || SameKey(y, x)
    ensures DuplicateFault(x, rest) + DuplicateFault(y, withX) == DuplicateFault(y, rest) + DuplicateFault(x, withY)
  {
    if SameKey(x, y) {
      assert KeyIn(x, rest) <==> KeyIn(y, rest) by {
        if KeyIn(x, rest) { var i :| 0 <= i < |rest| && SameKey(rest[i], x); assert SameKey(rest[i], y); }
        if KeyIn(y, rest) { var i :| 0 <= i < |rest| && SameKey(rest[i], y); assert SameKey(rest[i], x); }
      }
    }
  }

  lemma {:induction false} FaultsPermute(state: PortfolioState, view: DataView, date: Date, s: seq<Order>, t: seq<Order>)
    requires multiset(s) == multiset(t)
    ensures OrderFaults(state, view, date, s) == OrderFaults(state, view, date, t)
    ensures |s| == |t|
    decreases |s|
  {
    hide OwnFaults, KeyIn;
    assert |multiset(s)| == |s| && |multiset(t)| == |t|;
    if s != [] {
      var n := |s| - 1;
      var x := s[n];
      assert x in multiset(s);
      assert x in t;
      var k :| 0 <= k < |t| && t[k] == x;
      WithoutMembers(t, k, x);
      WithoutMembers(s, n, x);
      assert Without(s, n) == s[..n];
      CancelOne(multiset(s[..n]), multiset(Without(t, k)), x);
      FaultsPermute(state, view, date, s[..n], Without(t, k));
      FaultsFromAny(state, view, date, t, k);
      SameDuplicates(x, s[..n], Without(t, k));
    }
  }

  lemma CancelOne(a: multiset<Order>, b: multiset<Order>, x: Order)
    requires a + multiset{x} == b + multiset{x}
    ensures a == b
  {
    assert a == (a + multiset{x}) - multiset{x};
    assert b == (b + multiset{x}) - multiset{x};
  }

  lemma UniqueKeysSame(s: seq<Order>, i: nat, j: nat)
    requires UniqueKeys(s) && i < |s| && j < |s| && SameKey(s[i], s[j])
    ensures i == j
  {
  }

  lemma SameDuplicates(x: Order, s: seq<Order>, t: seq<Order>)
    requires multiset(s) == multiset(t)
    ensures DuplicateFault(x, s) == DuplicateFault(x, t)
  {
    if KeyIn(x, s) {
      var i :| 0 <= i < |s| && SameKey(s[i], x);
      var o := s[i];
      assert o in multiset(s);
      assert o in t;
      var j :| 0 <= j < |t| && t[j] == o;
    }
    if KeyIn(x, t) {
      var i :| 0 <= i < |t| && SameKey(t[i], x);
      var o := t[i];
      assert o in multiset(t);
      assert o in s;
      var j :| 0 <= j < |s| && s[j] == o;
    }
  }

  lemma PermutationMembers(s: seq<Order>, t: seq<Order>)
    requires multiset(s) == multiset(t)
    ensures forall o :: o in s <==> o in t
  {
    forall o ensures o in s <==> o in t {
      assert o in s <==> o in multiset(s);
      assert o in t <==> o in multiset(t);
    }
  }

  lemma SideMapPermutes(s: seq<Order>, t: seq<Order>, side: Side)
    requires UniqueKeys(s) && forall o :: o in s <==> o in t
    ensures SideMap(s, side) == SideMap(t, side)
  {
    var a, b := SideMap(s, side), SideMap(t, side);
    forall k ensures k in a <==> k in b {
      if k in a { assert Order(side, k, a[k]) in t; }
      if k in b { assert Order(side, k, b[k]) in s; }
    }
    forall k | k in a ensures a[k] == b[k] {
      var o, p := Order(side, k, a[k]), Order(side, k, b[k]);
      assert o in s && p in t && p in s;
      var i :| 0 <= i < |s| && s[i] == o;
      var j :| 0 <= j < |s| && s[j] == p;
      UniqueKeysSame(s, i, j);
    }
  }

  lemma OpensForPermutes(view: DataView, date: Date, s: seq<Order>, t: seq<Order>)
    requires forall o :: o in s <==> o in t
    requires forall o :: o in s ==> view.OpenPrice(o.asset, date).Some?
    ensures OpensFor(view, date, s) == OpensFor(view, date, t)
  {
    hide DataView.OpenPrice;
    var a, b := OpensFor(view, date, s), OpensFor(view, date, t);
    OpensForKeys(view, date, s);
    OpensForKeys(view, date, t);
    forall k ensures k in a <==> k in b {
      if k in a { var o :| o in s && o.asset == k; assert o in t; }
      if k in b { var o :| o in t && o.asset == k; assert o in s; }
    }
    forall k | k in a ensures a[k] == b[k] {
      assert view.OpenPrice(k, date) == Some(a[k]) && view.OpenPrice(k, date) == Some(b[k]);
    }
  }

  lemma {:induction false} OpensForKeys(view: DataView, date: Date, s: seq<Order>)
    ensures forall k :: k in OpensFor(view, date, s) ==> exists o :: o in s && o.asset == k
  {
    if s != [] {
      var n := |s| - 1;
      OpensForKeys(view, date, s[..n]);
      var last := s[n];
      assert last in s;
      forall k | k in OpensFor(view, date, s) ensures exists o :: o in s && o.asset == k {
        if k in OpensFor(view, date, s[..n]) {
          var o :| o in s[..n] && o.asset == k;
          assert o in s;
        } else {
          assert last.asset == k;
        }
      }
    }
  }

  /** Presenting the same orders in any other order gives the same outcome, accepted or refused. */
  lemma OutcomeIgnoresListOrder(state: PortfolioState, view: DataView, date: Date, bps: real, s: seq<Order>, t: seq<Order>)
    requires PositiveOpens(view) && multiset(s) == multiset(t)
    ensures ApplyOrders(state, s, view, date, bps) == ApplyOrders(state, t, view, date, bps)
  {
    hide OrderFaults, OpensFor, SideMap, SellAll, BuyAll, OwnFaults, UniqueKeys, OrdersPriced;
    if CostsSupported(bps) {
      FaultsPermute(state, view, date, s, t);
      if OrderFaults(state, view, date, s) == multiset{} {
        AllOrNothing(state, s, view, date, bps);
        FillsAreDefined(state, s, view, date);
        FillsAreDefined(state, t, view, date);
        PermutationMembers(s, t);
        SideMapPermutes(s, t, Sell);
        SideMapPermutes(s, t, Buy);
        OpensForPermutes(view, date, s, t);
      }
    }
  }
}
