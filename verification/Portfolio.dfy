/** The settled portfolio, target weights, orders and fills: quantize/engine/state.py,
    quantize/engine/orders.py and PortfolioTargetsValue of quantize/runtime/values.py. */
module Portfolio {
  import opened Collections
  import opened Market

  const WEIGHT_TOLERANCE: real := 0.000000001

  datatype Holdings = Holdings(cash: real, positions: map<Asset, real>)

  /** Cash is never negative and only strictly positive quantities are kept. */
  ghost predicate Settled(h: Holdings) {
    h.cash >= 0.0 && forall a :: a in h.positions ==> h.positions[a] > 0.0
  }

  type PortfolioState = h: Holdings | Settled(h) witness Holdings(0.0, map[])

  function QuantityOf(positions: map<Asset, real>, asset: Asset): real {
    if asset in positions then positions[asset] else 0.0
  }

  ghost predicate UniqueAssets(entries: seq<(Asset, real)>) {
    forall i, j :: 0 <= i < j < |entries| ==> entries[i].0 != entries[j].0
  }

  /** The constructor: refuse negatives and duplicates, drop zero quantities. */
  method NewPortfolio(cash: real, entries: seq<(Asset, real)>) returns (r: Option<PortfolioState>)
    ensures r.Some? <==> cash >= 0.0 && UniqueAssets(entries) && forall i :: 0 <= i < |entries| ==> entries[i].1 >= 0.0
    ensures r.Some? ==> r.value.cash == cash
    ensures r.Some? ==> forall i :: 0 <= i < |entries| ==> QuantityOf(r.value.positions, entries[i].0) == entries[i].1
    ensures r.Some? ==> forall a :: a in r.value.positions ==> exists i :: 0 <= i < |entries| && entries[i].0 == a
  {
    if cash < 0.0 {
      return None;
    }
    var positions: map<Asset, real> := map[];
    var seen: set<Asset> := {};
    for k := 0 to |entries|
      invariant UniqueAssets(entries[..k])
      invariant forall i :: 0 <= i < k ==> entries[i].1 >= 0.0
      invariant forall a :: a in seen <==> exists i :: 0 <= i < k && entries[i].0 == a
      invariant forall a :: a in positions ==> positions[a] > 0.0 && a in seen
      invariant forall i :: 0 <= i < k ==> QuantityOf(positions, entries[i].0) == entries[i].1
    {
      var (asset, quantity) := entries[k];
      if asset in seen {
        var i :| 0 <= i < k && entries[i].0 == asset;
        assert entries[k].0 == asset;
        return None;
      }
      if quantity < 0.0 {
        return None;
      }
      if quantity > 0.0 {
        positions := positions[asset := quantity];
      }
      seen := seen + {asset};
      assert entries[..k + 1] == entries[..k] + [entries[k]];
    }
    assert entries[..|entries|] == entries;
    return Some(Holdings(cash, positions));
  }

  /** Weights are non-negative and sum to at most one, within tolerance; cash is the remainder. */
  ghost predicate WeightsOk(w: map<Asset, real>) {
    (forall a :: a in w ==> w[a] >= 0.0) && SumMap(w) <= 1.0 + WEIGHT_TOLERANCE
  }

  type Weights = w: map<Asset, real> | WeightsOk(w) witness map[]

  datatype Side = Sell | Buy

  datatype RawOrder = Order(side: Side, asset: Asset, quantity: real)

  /** Every order trades a positive quantity. */
  type Order = o: RawOrder | o.quantity > 0.0 witness Order(Buy, 0, 1.0)

  datatype Fill = Fill(side: Side, asset: Asset, quantity: real, price: real, cost: real, cashDelta: real, scaled: bool)

  /** What the positions are worth, each at its price. */
  function Worth(positions: map<Asset, real>, prices: map<Asset, real>): real
    requires positions.Keys <= prices.Keys
  {
    SumMap(Notionals(positions, prices))
  }

  function Notionals(positions: map<Asset, real>, prices: map<Asset, real>): (r: map<Asset, real>)
    requires positions.Keys <= prices.Keys
    ensures r.Keys == positions.Keys
    ensures forall a :: a in r ==> r[a] == Times(positions[a], prices[a])
  {
    map a | a in positions :: Times(positions[a], prices[a])
  }

  lemma TimesNonNegative(x: real, y: real)
    requires x >= 0.0 && y >= 0.0
    ensures Times(x, y) >= 0.0
  {
  }
}
