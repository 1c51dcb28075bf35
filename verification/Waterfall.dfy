/** Cap and redistribute: quantize/nodes/risk.py, the max-weight waterfall. */
module Waterfall {
  import opened Collections
  import opened Market
  import opened Portfolio

  function Over(w: map<Asset, real>, cap: real): set<Asset> {
    set a | a in w && w[a] > cap + WEIGHT_TOLERANCE
  }

  /** Uncapped assets with room left below the cap. */
  function Eligible(w: map<Asset, real>, capped: set<Asset>, cap: real): set<Asset> {
    set a | a in w && a !in capped && 0.0 < w[a] < cap - WEIGHT_TOLERANCE
  }

  /** What lies above the cap. */
  function Excesses(w: map<Asset, real>, over: set<Asset>, cap: real): (r: map<Asset, real>)
    requires over <= w.Keys
    ensures r.Keys == over && forall a :: a in over ==> r[a] == w[a] - cap
  {
    map a | a in over :: w[a] - cap
  }

  function CapTo(w: map<Asset, real>, over: set<Asset>, cap: real): (r: map<Asset, real>)
    ensures r.Keys == w.Keys && forall a :: a in w ==> r[a] == if a in over then cap else w[a]
  {
    map a | a in w :: if a in over then cap else w[a]
  }

  /** Each eligible weight grows in proportion to itself. */
  function Grow(w: map<Asset, real>, eligible: set<Asset>, rate: real): (r: map<Asset, real>)
    ensures r.Keys == w.Keys && forall a :: a in w ==> r[a] == if a in eligible then w[a] + Times(w[a], rate) else w[a]
  {
    map a | a in w :: if a in eligible then w[a] + Times(w[a], rate) else w[a]
  }

  lemma CapTotal(w: map<Asset, real>, over: set<Asset>, cap: real)
    requires over <= w.Keys
    ensures SumMap(CapTo(w, over, cap)) == SumMap(w) - SumMap(Excesses(w, over, cap))
  {
    var capped := CapTo(w, over, cap);
    var spread: map<Asset, real> := map a | a in w :: if a in over then w[a] - cap else 0.0;
    SumAdd(capped, spread, w);
    SumOverPart(spread, Excesses(w, over, cap));
  }

  lemma GrowTotal(w: map<Asset, real>, eligible: set<Asset>, rate: real)
    requires eligible <= w.Keys
    ensures SumMap(Grow(w, eligible, rate)) == SumMap(w) + Times(SumMap(Restrict(w, eligible)), rate)
  {
    hide Times;
    var part := Restrict(w, eligible);
    var gains := map a | a in w :: if a in eligible then Scaled(part, rate)[a] else 0.0;
    SumAdd(w, gains, Grow(w, eligible, rate));
    SumOverPart(gains, Scaled(part, rate));
    SumScale(part, rate);
  }

  /** What one run of the waterfall keeps, `factor` being the growth common to all still-eligible weights. */
  ghost predicate WaterfallInv(t: map<Asset, real>, w: map<Asset, real>, capped: set<Asset>, cap: real, factor: real) {
    && w.Keys == t.Keys && capped <= t.Keys
    && factor >= 1.0
    && (forall a :: a in t ==> w[a] >= 0.0 && (w[a] > 0.0 <==> t[a] > 0.0))
    && (forall a :: a in capped ==> w[a] == cap && (t[a] > cap + WEIGHT_TOLERANCE || t[a] < cap - WEIGHT_TOLERANCE))
    && (forall a :: a in t && a !in capped ==> w[a] >= t[a] && (w[a] == t[a] || t[a] < cap - WEIGHT_TOLERANCE))
    && (forall a :: a in t && a !in capped && w[a] < cap - WEIGHT_TOLERANCE ==> w[a] == Times(t[a], factor))
    && (forall a, b :: a in t && b in t && t[a] <= t[b] ==> w[a] <= w[b] || w[b] >= cap - WEIGHT_TOLERANCE)
  }

  lemma GrowthCompounds(x: real, factor: real, rate: real)
    ensures Times(x, factor) + Times(Times(x, factor), rate) == Times(x, factor * (1.0 + rate))
  {
    assert x * factor + x * factor * rate == x * (factor * (1.0 + rate));
  }

  lemma GrowthMonotone(x: real, y: real, rate: real)
    requires 0.0 <= x <= y && rate >= 0.0
    ensures 0.0 <= Times(x, rate) <= Times(y, rate)
  {
  }

  /** Capping what is over the cap keeps the invariant. */
  lemma CapStep(t: map<Asset, real>, w: map<Asset, real>, capped: set<Asset>, cap: real, factor: real)
    requires cap > 0.0 && (forall a :: a in t ==> t[a] >= 0.0) && WaterfallInv(t, w, capped, cap, factor)
    ensures Over(w, cap) !! capped
    ensures WaterfallInv(t, CapTo(w, Over(w, cap), cap), capped + Over(w, cap), cap, factor)
    ensures Over(CapTo(w, Over(w, cap), cap), cap) == {}
  {
    hide Times;
    forall a | a in Over(w, cap) ensures a !in capped { }
  }

  /** Growing all eligible weights by one rate keeps the invariant. */
  lemma GrowStep(t: map<Asset, real>, w: map<Asset, real>, capped: set<Asset>, cap: real, factor: real, rate: real)
    requires cap > 0.0 && (forall a :: a in t ==> t[a] >= 0.0) && WaterfallInv(t, w, capped, cap, factor) && rate >= 0.0
    ensures factor * (1.0 + rate) >= 1.0
    ensures WaterfallInv(t, Grow(w, Eligible(w, capped, cap), rate), capped, cap, factor * (1.0 + rate))
  {
    hide Times;
    RatesGrow(factor, rate);
    var eligible := Eligible(w, capped, cap);
    var w' := Grow(w, eligible, rate);
    forall a | a in eligible ensures w'[a] >= w[a] {
      GrowthMonotone(0.0, w[a], rate);
    }
    forall a | a in t && a !in capped && w'[a] < cap - WEIGHT_TOLERANCE ensures w'[a] == Times(t[a], factor * (1.0 + rate)) {
      GrowthCompounds(t[a], factor, rate);
      ZeroGrowth(factor * (1.0 + rate));
    }
    forall a, b | a in t && b in t && t[a] <= t[b] ensures w'[a] <= w'[b] || w'[b] >= cap - WEIGHT_TOLERANCE {
      if w'[b] < cap - WEIGHT_TOLERANCE {
        assert w[a] <= w[b];
        GrowthMonotone(w[a], w[b], rate);
        ZeroGrowth(rate);
      }
    }
  }

  lemma RatesGrow(factor: real, rate: real)
    requires factor >= 1.0 && rate >= 0.0
    ensures factor * (1.0 + rate) >= 1.0
  {
  }

  lemma ZeroGrowth(f: real)
    ensures Times(0.0, f) == 0.0
  {
  }

  /** The result: nobody above the cap, nothing created, money left over only when everyone is full, nobody
      pushed down who was not above the cap, order kept, proportions kept among the weights still below it. */
  ghost predicate Capped(t: map<Asset, real>, w: map<Asset, real>, capped: set<Asset>, cap: real) {
    && w.Keys == t.Keys
    && (forall a :: a in t ==> 0.0 <= w[a] <= cap + WEIGHT_TOLERANCE && (w[a] > 0.0 <==> t[a] > 0.0))
    && SumMap(w) <= SumMap(t)
    && (SumMap(w) == SumMap(t) || forall a :: a in t && t[a] > 0.0 ==> w[a] >= cap - WEIGHT_TOLERANCE)
    && (forall a :: a in t && t[a] <= cap + WEIGHT_TOLERANCE ==> w[a] >= t[a])
    && (forall a, b :: a in t && b in t && t[a] <= t[b] ==> w[a] <= w[b] + WEIGHT_TOLERANCE + WEIGHT_TOLERANCE)
    && (forall a :: a in capped ==> a in t && w[a] == cap)
    && (exists factor :: Proportional(t, w, capped, cap, factor))
  }

  /** One growth factor explains every weight that was never capped and still has room. */
  ghost predicate Proportional(t: map<Asset, real>, w: map<Asset, real>, capped: set<Asset>, cap: real, factor: real) {
    && factor >= 1.0 && w.Keys == t.Keys
    && forall a :: a in t && w[a] < cap - WEIGHT_TOLERANCE && a !in capped ==> w[a] == Times(t[a], factor)
  }

  lemma InvGivesCapped(t: map<Asset, real>, w: map<Asset, real>, capped: set<Asset>, cap: real, factor: real)
    requires cap > 0.0 && WaterfallInv(t, w, capped, cap, factor) && Over(w, cap) == {}
    requires SumMap(w) <= SumMap(t)
    requires SumMap(w) == SumMap(t) || Eligible(w, capped, cap) == {}
    ensures Capped(t, w, capped, cap)
  {
    hide Times, SumMap;
    assert Proportional(t, w, capped, cap, factor);
    forall a | a in t ensures w[a] <= cap + WEIGHT_TOLERANCE {
      assert a !in Over(w, cap);
    }
    if SumMap(w) != SumMap(t) {
      forall a | a in t && t[a] > 0.0 ensures w[a] >= cap - WEIGHT_TOLERANCE {
        assert a !in Eligible(w, capped, cap);
      }
    }
  }

  lemma ExcessPositive(w: map<Asset, real>, cap: real)
    requires Over(w, cap) != {}
    ensures SumMap(Excesses(w, Over(w, cap), cap)) > 0.0
  {
    var e := Excesses(w, Over(w, cap), cap);
    SumNonNegative(e);
    var a := MinOf(Over(w, cap));
    assert e[a] > 0.0;
  }

  /** No eligible weight exactly when the eligible total is not positive. */
  lemma EligibleTotal(w: map<Asset, real>, capped: set<Asset>, cap: real)
    ensures SumMap(Restrict(w, Eligible(w, capped, cap))) <= 0.0 <==> Eligible(w, capped, cap) == {}
  {
    var eligible := Eligible(w, capped, cap);
    var part := Restrict(w, eligible);
    if eligible == {} {
      assert part == map[];
    } else {
      SumNonNegative(part);
      var a := MinOf(eligible);
      assert part[a] > 0.0;
    }
  }

  lemma CapMore(w: map<Asset, real>, done: set<Asset>, asset: Asset, cap: real, w': map<Asset, real>)
    requires asset in w && w' == CapTo(w, done, cap)
    ensures w'[asset := cap] == CapTo(w, done + {asset}, cap)
  {
  }

  lemma GrowMore(w: map<Asset, real>, done: set<Asset>, asset: Asset, rate: real, w': map<Asset, real>)
    requires asset in w && asset !in done && w' == Grow(w, done, rate)
    ensures w'[asset := w'[asset] + Times(w'[asset], rate)] == Grow(w, done + {asset}, rate)
  {
    hide Times;
  }

  lemma NothingDone(w: map<Asset, real>, cap: real, rate: real)
    ensures CapTo(w, {}, cap) == w && Grow(w, {}, rate) == w
  {
  }

  lemma UnionMore(capped: set<Asset>, done: set<Asset>, asset: Asset)
    ensures capped + done + {asset} == capped + (done + {asset})
  {
  }

  /** Lines 88-90. */
  method CapOver(w: map<Asset, real>, over: set<Asset>, capped: set<Asset>, cap: real) returns (w': map<Asset, real>, capped': set<Asset>)
    requires over <= w.Keys
    ensures w' == CapTo(w, over, cap) && capped' == capped + over
  {
    hide CapTo, ToSet, Sorted;
    w', capped' := w, capped;
    var assets := Sorted(over);
    SortedSet(over);
    NothingDone(w, cap, 0.0);
    ghost var done: set<Asset> := {};
    for i := 0 to |assets|
      invariant done == ToSet(assets[..i])
      invariant w' == CapTo(w, done, cap) && capped' == capped + done
    {
      var asset := assets[i];
      assert asset in over;
      PrefixSet(assets, i);
      CapMore(w, done, asset, cap, w');
      UnionMore(capped, done, asset);
      w' := w'[asset := cap];
      capped' := capped' + {asset};
      done := done + {asset};
    }
  }

  /** Lines 100-101. */
  method Redistribute(w: map<Asset, real>, eligible: set<Asset>, rate: real) returns (w': map<Asset, real>)
    requires eligible <= w.Keys
    ensures w' == Grow(w, eligible, rate)
  {
    hide Times, ToSet, Grow;
    w' := w;
    var assets := Sorted(eligible);
    SortedSet(eligible);
    NothingDone(w, 0.0, rate);
    ghost var done: set<Asset> := {};
    for i := 0 to |assets|
      invariant done == ToSet(assets[..i])
      invariant w' == Grow(w, done, rate)
    {
      var asset := assets[i];
      assert asset in eligible;
      PrefixSet(assets, i);
      FreshNext(assets, i);
      GrowMore(w, done, asset, rate, w');
      w' := w'[asset := w'[asset] + Times(w'[asset], rate)];
      done := done + {asset};
    }
  }

  /** One round of the loop: cap, then redistribute if anybody has room. */
  method Round(ghost t: map<Asset, real>, w: map<Asset, real>, capped: set<Asset>, cap: real, ghost factor: real, over: set<Asset>)
    returns (w': map<Asset, real>, capped': set<Asset>, ghost factor': real, more: bool)
    requires cap > 0.0 && (forall a :: a in t ==> t[a] >= 0.0) && WaterfallInv(t, w, capped, cap, factor)
    requires over == Over(w, cap) && over != {} && over <= w.Keys
    ensures over !! capped && capped' == capped + over
    ensures WaterfallInv(t, w', capped', cap, factor')
    ensures more ==> SumMap(w') == SumMap(w)
    ensures !more ==> SumMap(w') < SumMap(w) && Over(w', cap) == {} && Eligible(w', capped', cap) == {}
  {
    hide SumMap, Times, WaterfallInv, Eligible, Over;
    var excess := SumMap(Excesses(w, over, cap));
    ExcessPositive(w, cap);
    CapTotal(w, over, cap);
    CapStep(t, w, capped, cap, factor);
    w', capped' := CapOver(w, over, capped, cap);
    factor' := factor;
    var eligible := Eligible(w', capped', cap);
    EligibleWithin(w', capped', cap);
    var eligibleTotal := SumMap(Restrict(w', eligible));
    EligibleTotal(w', capped', cap);
    if eligibleTotal <= 0.0 {
      more := false;
    } else {
      var rate := excess / eligibleTotal;
      RateRestores(excess, eligibleTotal);
      GrowTotal(w', eligible, rate);
      GrowStep(t, w', capped', cap, factor, rate);
      w' := Redistribute(w', eligible, rate);
      factor' := factor * (1.0 + rate);
      more := true;
    }
  }

  /** The max-weight node. It needs no more rounds than there are assets, and its result is a valid allocation. */
  method MaxWeight(targets: Weights, cap: real)
    returns (weights: Weights, capped: set<Asset>, iterations: nat, leftInCash: real)
    requires 0.0 < cap <= 1.0
    ensures Capped(targets, weights, capped, cap)
    ensures iterations <= |targets|
    ensures leftInCash == SumMap(targets) - SumMap(weights) >= 0.0
    ensures capped == {} <==> iterations == 0
    ensures iterations == 0 ==> weights == targets
  {
    hide SumMap, Times, WaterfallInv, Capped, Eligible, Over;
    var w: map<Asset, real> := targets;
    capped, iterations := {}, 0;
    ghost var factor := 1.0;
    WaterfallStart(targets, cap);
    var more := true;
    while more
      invariant WaterfallInv(targets, w, capped, cap, factor)
      invariant capped <= targets.Keys && iterations <= |capped|
      invariant SumMap(w) <= SumMap(targets)
      invariant more ==> SumMap(w) == SumMap(targets)
      invariant !more ==> Over(w, cap) == {} && (SumMap(w) == SumMap(targets) || Eligible(w, capped, cap) == {})
      invariant (capped == {} <==> iterations == 0) && (iterations == 0 ==> w == targets)
      decreases more, |targets.Keys| - |capped|
    {
      var over := Over(w, cap);
      SameKeys(targets, w, capped, cap, factor);
      if over == {} {
        more := false;
      } else {
        iterations := iterations + 1;
        ghost var before := capped;
        w, capped, factor, more := Round(targets, w, capped, cap, factor, over);
        MoreCapped(before, over, targets.Keys);
      }
    }
    SubsetSize(capped, targets.Keys);
    InvGivesCapped(targets, w, capped, cap, factor);
    CappedIsValid(targets, w, capped, cap);
    weights := w;
    leftInCash := SumMap(targets) - SumMap(weights);
  }

  lemma SameKeys(t: map<Asset, real>, w: map<Asset, real>, capped: set<Asset>, cap: real, factor: real)
    requires WaterfallInv(t, w, capped, cap, factor)
    ensures w.Keys == t.Keys && Over(w, cap) <= t.Keys && Over(w, cap) <= w.Keys
  {
  }

  lemma WaterfallStart(t: Weights, cap: real)
    requires cap > 0.0
    ensures WaterfallInv(t, t, {}, cap, 1.0)
  {
  }

  lemma EligibleWithin(w: map<Asset, real>, capped: set<Asset>, cap: real)
    ensures Eligible(w, capped, cap) <= w.Keys
  {
  }

  lemma RateRestores(excess: real, total: real)
    requires excess > 0.0 && total > 0.0
    ensures excess / total >= 0.0 && Times(total, excess / total) == excess
  {
  }

  lemma MoreCapped(before: set<Asset>, over: set<Asset>, all: set<Asset>)
    requires before !! over && over != {} && before + over <= all
    ensures |before + over| > |before| && |before + over| <= |all|
  {
    var a := MinOf(over);
    assert |before + over| == |before| + |over|;
    SubsetSize(before + over, all);
  }

  lemma SubsetSize(a: set<Asset>, b: set<Asset>)
    requires a <= b
    ensures |a| <= |b|
  {
    assert b == a + (b - a);
    assert |b| == |a| + |b - a|;
  }

  lemma CappedIsValid(t: Weights, w: map<Asset, real>, capped: set<Asset>, cap: real)
    requires Capped(t, w, capped, cap)
    ensures WeightsOk(w) && SumMap(w) <= SumMap(t)
  {
  }
}
